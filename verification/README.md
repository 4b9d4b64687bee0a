# Terrapod: verified cores

Terrapod is a self-hosted replacement for Terraform Cloud. This project models the parts of it whose correctness is a
matter of protocol rather than plumbing, and proves what their documentation and tests promise - or, where a promise
does not hold of the code, exactly when it does.

| module | what it models |
|---|---|
| `RetryClient`, `HttpRetry`, `Network` | the Go and the Python request loop, against a server behind a lossy network: an attempt may not arrive, may be applied and its answer lost, may be answered by a fault that did or did not apply it |
| `MigrationState` | the migration state file: its JSON, `Load`, `Save` with temporary file and rename and a failure or a crash at any point, the rollback targets |
| `Rollback`, `RollbackSafety`, `RollbackConvergence` | the rollback engine over the three pieces of state it must keep together: the records in memory, the file on disk, the server - with the process dying anywhere and being run again any number of times |
| `RoleCache` | the 60-second role cache as a state machine of concurrent resolvers, and the gates that read it |
| `Rewriter` | the HCL rewriter over token trees, from one attribute up to a directory tree |
| `Manifest`, `GpgVerify`, `Publisher` | the SHA256SUMS printer and its two parsers; signature verification that honours self-revocations; the ordered publication of a provider and the registry's checks |
| `StateUpload` | create, upload, compensating delete, against the server's three handlers |
| `Dedupe` | the migration that removes duplicate task stages and adds the unique constraint |
| `ConfigWalk` | the walk of rendered configuration against a possibly cyclic graph of Pydantic models |
| `Rubric`, `Report` | the evaluation rubric and its corpus rates, in exact arithmetic |
| `VcsMatch` | host canonicalisation and the matching of VCS connections |
| `Text`, `Folding` | strings, order on strings, folds |

Code that works step by step is a method with the source's loops and branches, tied by its `ensures` to a function of
the old state; the theorems are about that function. An adversary is a parameter: a schedule says what the network,
the disk and the clock do at each step, and the theorems hold for every schedule. What is assumed of the surroundings
appears as a named `requires`: a connect-class error of the Python client means that the request was not delivered,
and a fault of the server answers with a 5xx (`TruthfulNetwork`); a fault does not answer with a status by which the
handler says that the work is done (`Honest`, `HonestSchedule`); the JSON library reads back what it wrote
(`Faithful`); all launches of a rollback use one state file, and the server does not issue an identifier twice
(`Allowed`, `AllAllowed`); `round(x, 3)` gives a nearest thousandth (`Rounds`); a temporary file has a name of its
own, as O_EXCL gives it (`SaveKeepsItsFile` is the exact condition).

Where the code and its own documentation differ, the model follows the code:

- `rollback.go` discards the error of the Save that follows a delete answered 404 (lines 217, 258, 301, 344, 382,
  451). A run can therefore end with no error and no skip although the file still names the record as a target
  (`SilentlyStaleFile`); it does exactly when the last target's delete answered 404 and its Save did not get through
  (`StaleExactly`), and convergence of the file on disk is stated with that condition (`CrashConvergence`).
- The comment of `client.go` line 253 says the backoff is capped at 4 s; nothing caps it. Every backoff of every call
  is within 4 s exactly for clients with at most three retries (`BackoffCap`).
- `attrStringValue` promises "" for anything but a literal; it stops at the first closing quote and ignores what
  follows. The promise is kept exactly by the expressions that do not go on after a literal with text
  (`ReadValueIsLiteral`, `ConditionalReadAsLiteral`).
- A second rewrite makes no edit unless both the hosts agree up to letter case and the name map has a chain
  (`IdempotentExactly`).
- Platforms whose goos contains an underscore can share a file name (`UnderscoresCollide`). A goarch with a slash, as
  in "linux/arm/v7", has no route on the registry (`ThreePartsAreNotRouted`), and neither has a name or version with
  one (`SlashInVersionIsRefused`). Every step of a publication is accepted exactly when name, version and platforms
  are single path segments, no body is empty and the manifest covers every zip (`EveryStepAccepted`).
- The docstring of `store_and_verify_provider_sig` says that binaries are never accepted under an untrusted manifest.
  A manifest sent after the signature keeps the version signed, and a zip is then checked against a manifest that no
  key signed (`UnsignedManifestTrusted`). The manifest a zip is checked against is trusted exactly when none followed
  the last signature but one that the signature covers as well (`TrustedExactly`); `PublishProvider` itself always
  keeps to that (`PublishedUnderTrust`).
- `is_revoked` promises that a genuine self-revocation always trips it; an exception while the packets are enumerated
  makes it answer "not revoked". The promise is kept exactly when no packet throws before the first self-revocation
  (`RevocationTripsExactly`, `MissedRevocation`).
- `CreateAndUploadState` leaves a row, silently, when the answer to the create step is lost (`LostCreateIsSilent`),
  and reports a failed cleanup when a replayed delete finds the row already gone (`GoneYetReported`). A failed create
  leaves a row exactly when the request was applied and accepted (`FailedCreateLeavesRowExactly`); a reported cleanup
  failure is true exactly when the row is protected or no delete was applied (`FailedCleanupIsTrueExactly`).
- `_model_in` knows `Optional[X]` but not `X | None`, whose origin is `types.UnionType` on Python 3.13, nor models
  below the values of a dict, a frozenset or `Sequence`, a nested collection or an optional list item; the keys there
  are not checked. "Every key the chart renders is a real field" is decided by the walk exactly when no reachable
  field declares such a model (`NoDriftMeansConformingExactly`); `RunnerConfig.proxy` is one (`RunnerProxyIsBlind`,
  `DeeperModelsAreBlind`). Data of another kind than declared, such as a list in the place of one model, is left to
  Pydantic's validation by the walk and by `Conforms` alike.
- The comment on `resolveVCSConnections` says an exact URL wins; the code takes the first connection that matches by
  either (`ExactURLWinsExactly`, `HostBeforeURL`). It says that hosts are compared with scheme, port and path
  stripped; only "https", "http" and "ssh" in lower case are stripped, along with a user "git@", and any other scheme
  stands in for the host (`SchemeStrippedExactly`, `HostEqualityExactly`, `RemoteAgrees`, `DifferentHostsMatch`).
- The comment of `state.go` line 102 has the workspaces sorted by source name on every save; `Save` does not sort, so
  they are sorted exactly when they were before (`SavedOrderExactly`, `UnsortedIsSavedUnsorted`).
- `report.py` promises "1.0 = identical every time" of the repeatabilities, and rounds them to thousandths. A sweep
  keeps the promise exactly when no repeat misses or those that miss are not rounded away: fewer than one in 2000 are,
  and one in 2000 if 0.9995 rounds up (`IdenticalEveryTimeExactly`, `LongSweepHidesALevel`, `LongSweepHidesAFailure`).
  The figure for the hard pass is the share of passes, so a sweep that always fails breaks the promise too
  (`SameVerdictExactly`).

## Model

| member | source | states |
|---|---|---|
| RetryClient.MethodClasses | go-terrapod/client.go:239-246 | replayed are exactly the methods that equal GET, HEAD, OPTIONS, PUT or DELETE up to letter case; POST, PATCH, TRACE and CONNECT are not |
| RetryClient.Do | go-terrapod/client.go:277-327 | the loop leaves the server, the outcome and the counts that the recursive specification gives, for every network and every cancellation |
| RetryClient.CallBudget | go-terrapod/client.go:277-288 | at most MaxRetries + 1 sends, exactly 2^k - 1 seconds waited after k backoffs, and the server state is that after the attempts made |
| RetryClient.CallEffects | go-terrapod/client.go:277-288 | the server received the attempts that were sent, and is as its handler leaves it when run once for each attempt applied |
| RetryClient.CallEndsRightly | go-terrapod/client.go:304-326 | every attempt before the last was retryable and its wait uncancelled; the last is the first that was not, or the budget or the context ended the call |
| RetryClient.RepeatedExactly | go-terrapod/client.go:233-327 | of every attempt of every call: another follows iff there is budget, the wait is not cut short, the method is GET, HEAD, OPTIONS, PUT or DELETE, and what happened was 429, 5xx, a deadline or a timeout; the last attempt decides the outcome |
| RetryClient.AnswerReachesCaller | go-terrapod/client.go:320-347 | any other answer ends the call at that attempt, and its status decides the error: 401, 403, 404, 409 and 422 have their own types |
| RetryClient.BackoffCap | go-terrapod/client.go:248-258 | every backoff of every call, on every network, is within the documented 4 s iff the client has at most three retries |
| RetryClient.NonIdempotentAtMostOnce | go-terrapod/client.go:260-263 | a call by any method but GET, HEAD, OPTIONS, PUT and DELETE is sent, received and applied at most once |
| RetryClient.IdempotentResponseIsFinal | go-terrapod/client.go:320-324 | an idempotent call that returns a response never returns 429 or 5xx |
| Network.ReplayIsOnce | go-terrapod/client.go:233-238 | however often an idempotent request was replayed, by either client, the server is as after one application, or none |
| RetryClient.DoneMeansApplied | go-terrapod/client.go:233-238 | a status that only the handler gives means exactly one application's state, whatever was lost on the way |
| RetryClient.DoneByHandler | go-terrapod/client.go:233-238 | an idempotent call, whatever was lost, is applied once or not at all, and once if it ends in nil |
| RetryClient.DeleteMeansGone | go-terrapod/client.go:208-218 | a DELETE that ends in nil or NotFoundError leaves the resource absent; whatever the result, it removes nothing but the resource and what the server deletes along with it |
| RetryClient.DeleteAnswered | go-terrapod/client.go:208-218 | a DELETE whose first answer arrives ends in nil and removes the resource if it was there, and in NotFoundError if not |
| HttpRetry.RequestWithRetry | services/terrapod/http_retry.py:89-188 | both loops: of every attempt, another follows iff there is budget and it raised a connect-class error, or it raised or answered 5xx and the flag, or without one the method, lets it be replayed; the last attempt is the result; the server received and applied exactly those attempts that reached it; the code after the loop is reached iff retries < 0 |
| HttpRetry.AtMostOnce | services/terrapod/http_retry.py:55-82 | a call without the flag by any method but GET, HEAD, OPTIONS, PUT and DELETE, or with a false flag, is received and applied at most once on every network where connect-class errors mean "not delivered" |
| HttpRetry.NothingDelivered | services/terrapod/http_retry.py:71-77 | a non-idempotent call goes on only while nothing at all was delivered |
| HttpRetry.ResponseMeansApplied | services/terrapod/http_retry.py:103-135 | a returned response below 500 means the server is exactly as one application leaves it |
| HttpRetry.DefinitiveAnswersAreFinal | services/terrapod/http_retry.py:120-135 | no attempt follows a response below 500 |
| HttpRetry.SleepBudget | services/terrapod/http_retry.py:85-86 | no call sleeps longer than the sum of min(max_delay, base * 2^i) over its retries |
| HttpRetry.BackoffInRange | services/terrapod/http_retry.py:85-86 | each sleep lies between 0 and max_delay |
| HttpRetry.DefaultLadder | services/terrapod/http_retry.py:50-52 | the defaults sleep 7 seconds at most, and a fourth delay would be the 8 s cap |
| MigrationState.TargetsAreExact | migrate/internal/framework/state.go:367-383 | the target functions return exactly the created, still identified, not yet rolled-back records |
| MigrationState.TargetsAscend | migrate/internal/framework/state.go:374-383 | in slice order, none twice |
| MigrationState.State.RollbackTargets | migrate/internal/framework/state.go:374-528 | the loop of each of the six target functions computes that list |
| MigrationState.RecordRoundTrip | migrate/internal/framework/state.go:225-251 | a record survives JSON with its omitted empty fields |
| MigrationState.StateRoundTrip | migrate/internal/framework/state.go:284-327 | a whole state survives JSON |
| MigrationState.LegacyFileHasNoTargets | migrate/internal/framework/state.go:367-383 | a file without created_by_migration yields no target of any kind |
| MigrationState.State.Load | migrate/internal/framework/state.go:275-295 | Missing iff there is no file, ParseError iff it does not parse to a state, UnknownSchema and FutureSchema only for versions below and above 1, and the parsed state iff its version is 1 |
| MigrationState.FileSystem.Replace | migrate/internal/framework/state.go:329-353 | the steps from temporary file to rename, stopping at any fault or crash, leave the files the specification gives |
| MigrationState.State.Save | migrate/internal/framework/state.go:307-353 | Save re-stamps version, times and tool, keeps everything else, and replaces the file |
| MigrationState.SaveIsAtomic | migrate/internal/framework/state.go:297-301 | at every stop the target holds the complete old bytes or the complete new ones; new after success, old after failure; no temporary file left after success |
| MigrationState.SaveKeepsItsFile | migrate/internal/framework/state.go:329-352 | a successful Save leaves its file iff the temporary name differs from the target |
| MigrationState.SaveThenLoad | migrate/internal/framework/state.go:303-316 | Load after a successful Save returns the same records at version 1, CreatedAt kept once set |
| MigrationState.SavedOrderExactly | migrate/internal/framework/state.go:102-104 | the workspaces loaded after a Save are sorted by source name iff they were before it |
| MigrationState.UnsortedIsSavedUnsorted | migrate/internal/framework/state.go:102-104 | workspaces recorded as b, a come back unsorted from a Save and a Load, whatever else the state holds |
| Rollback.AllTargetsAreExact | migrate/cmd/terrapod-migrate/rollback.go:201-402 | the six loops together visit exactly the target records |
| Rollback.RefsUpToDistinct | migrate/cmd/terrapod-migrate/rollback.go:201-402 | no record is visited twice |
| Rollback.DeleteOne | migrate/cmd/terrapod-migrate/rollback.go:442-470 | delete, 404 tolerance, report, record update and Save, with the process dying at any point between them |
| Rollback.ProcessTarget | migrate/cmd/terrapod-migrate/rollback.go:402-471 | one iteration with dry run and advanced-state guard |
| Rollback.RunKind | migrate/cmd/terrapod-migrate/rollback.go:201-234 | one loop is the fold of that step over the targets computed at its start |
| Rollback.RunRollback | migrate/cmd/terrapod-migrate/rollback.go:188-474 | the six loops on the mutable state, file system and server are the run of the specification over all targets |
| Rollback.StepTouchesOnlyIts | migrate/cmd/terrapod-migrate/rollback.go:461-463 | an iteration changes State and TerrapodID of its own record and nothing else in the tables |
| Rollback.OtherKindsUntouched | migrate/cmd/terrapod-migrate/rollback.go:201-402 | a loop leaves the records of the other kinds alone |
| Rollback.DeadRunsStop | migrate/cmd/terrapod-migrate/rollback.go:466-470 | after a crash nothing more happens to memory, disk, server or log |
| RollbackSafety.SaveOutcomes | migrate/internal/framework/state.go:297-301 | a Save over a loadable file leaves the old or the new state to be loaded, and which one its result says |
| RollbackSafety.StepIsGood | migrate/cmd/terrapod-migrate/rollback.go:402-471 | the invariant between memory, disk and server is kept by every iteration, whatever fails |
| RollbackSafety.RunIsGood | migrate/cmd/terrapod-migrate/rollback.go:188-474 | and by every run |
| RollbackSafety.UnvisitedUntouched | migrate/cmd/terrapod-migrate/rollback.go:197-471 | records a run has not visited are unchanged |
| RollbackSafety.VisitedInTurn | migrate/cmd/terrapod-migrate/rollback.go:201-402 | keys, pools, notifications, triggers, variable sets and workspaces are visited in that order, each kind in slice order |
| RollbackSafety.StoppedStep | migrate/cmd/terrapod-migrate/rollback.go:402-440 | a dry run, an advanced serial, an unreadable one and a death at the read leave records, files and server alone and report exactly that |
| RollbackSafety.SentStep | migrate/cmd/terrapod-migrate/rollback.go:402-442 | every other target of an apply run is sent to the delete, a workspace after its read: any kind but workspaces, and those at or below their serial, without state, or forced |
| RollbackSafety.AnsweredDelete | migrate/cmd/terrapod-migrate/rollback.go:442-470 | nil and NotFoundError count as a deletion, any other error is reported and leaves the record and the file alone; a Save that fails is reported only after nil |
| RollbackSafety.EveryDeleteIsLicensed | migrate/cmd/terrapod-migrate/rollback.go:416-442 | every identifier sent to a delete belongs to a target record; without force a workspace delete directly follows a serial read at or below the migrated serial, or a 404; a dry run makes no call |
| RollbackSafety.RunRemovesOnly | migrate/cmd/terrapod-migrate/rollback.go:188-474 | a run removes nothing from the server but its target resources and what the server deletes along with them |
| RollbackSafety.ReportIsComplete | migrate/cmd/terrapod-migrate/rollback.go:107-126 | every target is reported exactly once with one of the final actions, and the counters tally |
| RollbackSafety.Accounting | migrate/cmd/terrapod-migrate/rollback.go:107-126 | deleted, skipped and errored sum to the number of targets, kind by kind |
| RollbackSafety.DryRunFidelity | migrate/cmd/terrapod-migrate/rollback.go:203-208 | the dry run lists the same records and identifiers in the same order as the apply run |
| RollbackSafety.DryRunTouchesNothing | migrate/cmd/terrapod-migrate/rollback.go:409-414 | and changes neither records, nor files, nor server |
| RollbackConvergence.LaunchIsSound | migrate/cmd/terrapod-migrate/rollback.go:466-470 | a launch, however it ends, leaves a loadable file that is a stage of the original's rollback |
| RollbackConvergence.HistoryIsSound | migrate/cmd/terrapod-migrate/rollback.go:466-470 | and so does any history of launches |
| RollbackConvergence.HistoryMarksOnly | migrate/cmd/terrapod-migrate/rollback.go:461-463 | over any history, every record in memory and in the file keeps its provenance, serial and other fields, and is the original or, having been a target, says rolled_back and has no identifier |
| RollbackConvergence.ProvenanceOverHistories | migrate/cmd/terrapod-migrate/rollback.go:188-474 | over any history of launches, each one's stretch of the log: a dry run adds no call, and every delete is of a target of the original file and, without force on that launch, of a workspace only straight after that launch read its serial at or below the migrated one, or got a 404 |
| RollbackConvergence.CleanStep | migrate/cmd/terrapod-migrate/rollback.go:442-470 | an iteration without error or skip settled its record |
| RollbackConvergence.CleanRunSettles | migrate/cmd/terrapod-migrate/rollback.go:188-474 | an apply run without error or skip settled every target |
| RollbackConvergence.StaleExactly | migrate/cmd/terrapod-migrate/rollback.go:443-453 | a clean apply run leaves the file behind memory iff the last target's delete answered 404 and the Save after it did not get through |
| RollbackConvergence.CrashConvergence | migrate/cmd/terrapod-migrate/rollback.go:188-474 | after any history of crashes, lost answers and failed saves, a clean apply run leaves every created resource absent and the records completely rolled back in memory, and on disk iff it is not so that the last target's delete answered 404 and its Save was lost |
| RollbackConvergence.EveryTargetIsMarked | migrate/cmd/terrapod-migrate/rollback.go:188-474 | after any history, a clean apply run has left every created, identified, not yet rolled-back record of the original file as rolled_back without identifier, its resource gone and its other fields kept; on disk too unless its last Save was lost |
| RollbackConvergence.ResumedEqualsUninterrupted | migrate/cmd/terrapod-migrate/rollback.go:466-470 | a resumed migration ends with the same records and header on disk as one uninterrupted run, unless either lost that last Save |
| RollbackConvergence.SilentlyStaleFile | migrate/cmd/terrapod-migrate/rollback.go:443-453 | a 404 followed by a failed Save is no error and no skip, and the file keeps naming the record as a target |
| RoleCache.Sorted | services/terrapod/api/dependencies.py:115 | the sorted list of a set, without duplicates |
| RoleCache.Redis.ResolveUserRoles | services/terrapod/api/dependencies.py:85-120 | a hit returns the cached list; a miss returns and caches the sorted union of the two reads and "everyone" |
| RoleCache.AloneIsFourSteps | services/terrapod/api/dependencies.py:85-120 | run alone, that method takes the state machine's four steps |
| RoleCache.NextIsSound | services/terrapod/api/dependencies.py:95-120 | every step of any resolver, of time and of Redis keeps cache and answers traceable to reads of the tables within their window |
| RoleCache.RunIsSound | services/terrapod/api/dependencies.py:85-120 | and so does every interleaving |
| RoleCache.StalenessBound | services/terrapod/api/dependencies.py:85-120 | every list returned at t is ascending, has "everyone", only roles present at some instant of [t - 60 - D, t], and every role present throughout it |
| RoleCache.StalenessIsReached | services/terrapod/api/dependencies.py:95-120 | the bound is attained: for every slack D there is a run with an answer at t + 60 + D that has a role assigned at the instant t only |
| RoleCache.EffectiveRoles | services/terrapod/api/dependencies.py:68-82 | for every role and every interleaving: an interactive token has no role but those assigned within [t - 60 - D, t] and all those assigned throughout it, a service_bound token those of them that are pinned, a detached one exactly those pinned |
| RoleCache.OtherCredentials | services/terrapod/api/dependencies.py:68-82 | a runner token has everyone only, a session what it lists |
| RoleCache.RevocationTakesEffect | services/terrapod/api/dependencies.py:413-434 | once admin, or admin and audit, have been revoked for 60 + D, in every interleaving no token resolved from the cache passes the admin, or the admin-or-audit gate, but a detached one that pins such a role |
| RoleCache.BoundTokenNeedsRecentAdmin | services/terrapod/api/dependencies.py:413-434 | a service_bound token passes either gate only by a role that is pinned and was assigned within the staleness window |
| Rewriter.AttrStringValue | migrate/internal/rewriter/rewriter.go:317-339 | the loop returns the text up to the first closing quote, "" if other tokens intervene |
| Rewriter.ReadValueIsLiteral | migrate/internal/rewriter/rewriter.go:314-316 | every expression is a literal or reads as "" iff it does not go on after a literal with text; whatever is read is a complete literal at its start |
| Rewriter.ConditionalReadAsLiteral | migrate/internal/rewriter/rewriter.go:314-316 | a comparison that starts with a quoted host goes on so, and reads as that host |
| Rewriter.RewriteCloudOrRemote | migrate/internal/rewriter/rewriter.go:252-312 | gate, host, organization and workspace names, with the edits reported, as the specification gives |
| Rewriter.RewriteContent | migrate/internal/rewriter/rewriter.go:197-228 | the nested block loops rewrite each cloud and remote block, note foreign backends and parse errors |
| Rewriter.BlockIsRewritten | migrate/internal/rewriter/rewriter.go:252-312 | item by item: a block without hostname is touched iff the source is app.terraform.io, one with a hostname iff that is the source; then the first hostname says the destination, or one is added at the end, an organization of the source says default, a mapped workspace name is replaced, and every other item stays |
| Rewriter.EditsAreThoseMade | migrate/internal/rewriter/rewriter.go:270-309 | an edit is reported of a block iff the block points at the source and that item changes |
| Rewriter.RewrittenAttributes | migrate/internal/rewriter/rewriter.go:270-293 | the attributes of a rewritten block: destination host, "default" where the source organization stood, others unchanged |
| Rewriter.RewrittenNames | migrate/internal/rewriter/rewriter.go:295-309 | a nested block stays in place with all it had, but for the name that the map moves |
| Rewriter.Retargeted | migrate/internal/rewriter/rewriter.go:246-251 | a block pointing at the source points at the destination and nowhere else afterwards; any other block is left alone |
| Rewriter.OnlyThoseAttributes | migrate/internal/rewriter/rewriter.go:24-26 | frame: nothing but hostname, organization and workspaces.name changes in a block |
| Rewriter.FileFrame | migrate/internal/rewriter/rewriter.go:197-228 | frame: every item of a file outside the chosen blocks stays, in place |
| Rewriter.NoEdits | migrate/internal/rewriter/rewriter.go:204-215 | a file has no edits exactly when none of its cloud and remote blocks has one |
| Rewriter.ReportIsOfTheFile | migrate/internal/rewriter/rewriter.go:197-228 | the edits of a file are those of its cloud and backend "remote" blocks inside terraform blocks, its notes the other backends, and the parse error |
| Rewriter.UneditedFile | migrate/internal/rewriter/rewriter.go:230-232 | a file without edits would be written back unchanged |
| Rewriter.IdempotentExactly | migrate/internal/rewriter/rewriter.go:259-309 | rewriting is idempotent on every file iff the hosts differ case-insensitively or the map has no chain |
| Rewriter.FromStateSettles | migrate/internal/rewriter/rewriter.go:108-121 | the identity map of RewriteFromState renames nothing and is always idempotent |
| Rewriter.Disk.RewriteFile | migrate/internal/rewriter/rewriter.go:170-244 | one file: reported change, failure cases, and the file replaced only in a write run |
| Rewriter.Disk.Visit | migrate/internal/rewriter/rewriter.go:134-159 | the walk callback skips vendor directories and other extensions |
| Rewriter.Disk.RewriteDir | migrate/internal/rewriter/rewriter.go:129-165 | the report lists the changes of the files reached before the first failure, dry or not, sorted by path if the walk completes; modified and skipped sum to them; only a write run changes files, and exactly those |
| Rewriter.SortedReport | migrate/internal/rewriter/rewriter.go:163 | sorting keeps every change, as a multiset, and leaves the paths in ascending order |
| Rewriter.OthersUntouched | migrate/internal/rewriter/rewriter.go:138-147 | files not selected or not reached are untouched |
| Rewriter.TreeIsRewritten | migrate/internal/rewriter/rewriter.go:129-165 | a complete write run rewrites, block by block, the *.tf files of the walk outside .terraform, .git and node_modules, and no others |
| Rewriter.SecondRunMakesNoEdit | migrate/internal/rewriter/rewriter.go:129-165 | a second run over a rewritten tree makes no edit, for settling options |
| Rewriter.SecondRunMayEdit | migrate/internal/rewriter/rewriter.go:300-307 | for any others there is a tree whose second run edits again |
| Rewriter.NothingPointsAtSource | migrate/internal/rewriter/rewriter.go:129-165 | after a complete write run a cloud or backend "remote" block points at the source iff one did before and the hosts are the same; every block that did points at the destination |
| Manifest.HexInjective | publish/internal/pack/pack.go:62-63 | different digests render differently |
| Manifest.HexExactly | publish/internal/pack/pack.go:62-63 | two digits of 0-9a-f a byte, the high one first |
| Manifest.SHA256SUMS | publish/internal/pack/pack.go:54-66 | the rendered text depends on the files only, not on the map's iteration order |
| Manifest.TwoFiles | publish/internal/pack/pack.go:54-66 | digest, two blanks, name and line feed a file, in ascending order of the names |
| Manifest.ParseSha256sums | services/terrapod/gpg_verify.py:68-85 | the parser's loop computes the line-by-line specification |
| Manifest.EntryExactly | services/terrapod/gpg_verify.py:76-84 | of any line with two fields or more, however spaced, the last is the name, without its stars, and the first in lower case the digest; a line with fewer says nothing |
| Manifest.ParsedNames | services/terrapod/gpg_verify.py:76-84 | no parse of any text yields a name with whitespace or a leading star |
| Manifest.RoundTrip | services/terrapod/gpg_verify.py:68-85 | parsing a rendered manifest yields filename to lower-case digest iff every name is non-empty, free of whitespace and without a leading star |
| GpgVerify.IsRevoked | services/terrapod/gpg_verify.py:36-65 | the loop with its two handlers: revoked iff a packet verifies as the key's own revocation and no unreadable one precedes it |
| GpgVerify.VerifyDetached | services/terrapod/gpg_verify.py:100-113 | true iff the key is not revoked, the signature parses and the library verifies it; every exception is false |
| GpgVerify.ForgeriesDoNotHide | services/terrapod/gpg_verify.py:57-60 | forged packets, even ones whose verification throws, do not hide a revocation |
| GpgVerify.RevocationTripsExactly | services/terrapod/gpg_verify.py:44-45 | only a genuine self-revocation trips it; one always does iff no packet throws while being read before the first of them |
| GpgVerify.MissedRevocation | services/terrapod/gpg_verify.py:61-65 | a self-revoked key that is not found revoked, and whose signature over any manifest verifies |
| Publisher.ZipNamesDistinct | publish/internal/pack/pack.go:46-50 | distinct platforms with underscore-free goos have distinct file names |
| Publisher.UnderscoresCollide | publish/internal/pack/pack.go:46-50 | without that two platforms can share one |
| Publisher.SplitExactly | publish/internal/publisher/publisher.go:101-107 | a platform splits at its first slash, into two parts that are not empty, or not at all |
| Publisher.Registry.Put | services/terrapod/services/registry_provider_service.py:127-337 | an upload through the retrying client: nil means that the registry accepted and stored it; in any case the version is as before or holds an accepted upload; on a network without faults the result says which it is: accepted, no route, no body, or refused |
| Publisher.BuildZips | publish/internal/publisher/publisher.go:45-58 | both maps, with every zip that of its platform, or the error of a platform that does not split or a zip that cannot be built |
| Publisher.UploadAll | publish/internal/publisher/publisher.go:66-82 | uploads in order until one fails; the registry holds exactly the counted ones, or one more whose answer was lost; Published iff all were sent |
| Publisher.PublishProvider | publish/internal/publisher/publisher.go:41-83 | every result with what it means for the registry: nothing sent before signing succeeded, then a prefix of manifest, signature, zips, and at most one more applied without an answer; on a clear network an acceptable plan is published |
| Publisher.CoverageIsExact | publish/internal/publisher/publisher.go:35-40 | the manifest covers every zip iff names have no whitespace and platforms sharing a name share a digest |
| Publisher.PlainNamesAreCoverable | publish/internal/publisher/publisher.go:57 | plain names and underscore-free goos are always covered |
| Publisher.EveryStepAccepted | publish/internal/publisher/publisher.go:66-80 | the registry accepts every step of the sequence, in any iteration order and from any earlier state, iff there are platforms and a signature, name, version and platforms are single path segments, no archive is empty, names have no whitespace and platforms sharing a name share a digest |
| Publisher.ThreePartsAreNotRouted | services/terrapod/api/routers/registry_providers.py:651 | linux/arm/v7 splits into a goarch that the route does not match |
| Publisher.SlashInVersionIsRefused | services/terrapod/api/routers/registry_providers.py:492-651 | under version 1.0/rc1 no upload is ever accepted |
| Publisher.TrustedExactly | services/terrapod/services/registry_provider_service.py:154-170 | over every history of accepted uploads, the manifest the next zip is checked against is signed by a registered key iff no manifest followed the last signature but one that it covers |
| Publisher.UnsignedManifestTrusted | services/terrapod/services/registry_provider_service.py:127-151 | for any routed zip, a history of accepted uploads after which it is accepted under an unsigned manifest |
| Publisher.PublishedUnderTrust | publish/internal/publisher/publisher.go:66-80 | from any earlier state, every zip of a publication is checked against a manifest with a valid signature |
| StateUpload.Server.CreateAndUploadState | go-terrapod/state_versions.go:82-106 | the three calls through the retry loop leave the table and result of the specification |
| StateUpload.Creating | go-terrapod/state_versions.go:38-58 | the create step is applied at most once, and a success means the row is there |
| StateUpload.Uploading | services/terrapod/api/routers/tfe_v2.py:1959-2075 | an upload is applied as a whole or not at all, however often replayed; a success means the content is stored |
| StateUpload.Removing | services/terrapod/api/routers/state_management.py:88-124 | a successful delete means the row is gone and was not the protected current version |
| StateUpload.ClearNetworkExactly | go-terrapod/state_versions.go:73-106 | without faults: a taken serial is refused unless forced; content of an accepted size and digest is stored, with both, and reported as uploaded; any other is refused and the table is as before |
| StateUpload.UploadAnswers | services/terrapod/api/routers/tfe_v2.py:1959-2040 | without faults the upload is answered 404 without a row, 413 over the cap, 422 for empty or mismatching content, and else 200 |
| StateUpload.RemoveAnswers | services/terrapod/api/routers/state_management.py:88-124 | without faults the delete is answered 404 without a row, 409 for the latest version of its workspace once it has content, and else 204 |
| StateUpload.NoSilentOrphan | go-terrapod/state_versions.go:73-82 | success is a complete record; a plain upload error is the table as before; a left-behind record means a reported cleanup failure, a failed create step or a dead process |
| StateUpload.FailedCreateLeavesRowExactly | go-terrapod/state_versions.go:87-90 | a failed create step leaves a row iff its one attempt was sent, applied and not refused |
| StateUpload.FailedCleanupIsTrueExactly | go-terrapod/state_versions.go:97-104 | after a reported cleanup failure the row is there iff it is the protected current version or no delete was applied; otherwise the table is as before the call |
| StateUpload.UploadedMeansAccepted | services/terrapod/api/routers/tfe_v2.py:2005-2040 | only non-empty bytes within the cap that match the declared MD5 are ever uploaded |
| StateUpload.TakenSerialIsRefused | services/terrapod/api/routers/tfe_v2.py:1908-1917 | a taken serial is refused unless forced, and nothing changes |
| StateUpload.RetryCollidesOnlyWithLeftovers | go-terrapod/state_versions.go:78-81 | after the call a retry at the same serial is refused iff a record was left behind, so never after a plain upload error |
| StateUpload.AppliedUploadIsKept | services/terrapod/api/routers/state_management.py:102-124 | an upload applied with its answer lost cannot be undone when current: the cleanup is refused and reported |
| StateUpload.GoneYetReported | go-terrapod/state_versions.go:100-102 | an input of the whole call: a delete applied by an attempt that failed and replayed on the row already gone is reported as a failed cleanup of a table that is as before |
| StateUpload.LostCreateIsSilent | go-terrapod/state_versions.go:87-90 | an input of the whole call: a create step whose answer was lost leaves the row and reports only its own failure |
| Dedupe.FirstRowIsOldest | alembic/versions/5456426d7dd8_task_stage_unique_run_stage.py:37-43 | row number 1 is the least row of its partition by (created_at, id) |
| Dedupe.Database.Upgrade | alembic/versions/5456426d7dd8_task_stage_unique_run_stage.py:29-48 | for every table: the oldest row per pair is left, results follow their stages, and the constraint is accepted |
| Dedupe.Database.InsertStage | services/terrapod/db/models.py:1882-1889 | with the constraint on, a second row of a pair is refused and uniqueness is kept |
| Dedupe.OneRowPerPair | alembic/versions/5456426d7dd8_task_stage_unique_run_stage.py:30-31 | exactly one row per (run_id, stage) survives, unaltered, no pair is lost |
| Dedupe.ResultsFollowStages | alembic/versions/5456426d7dd8_task_stage_unique_run_stage.py:31 | a result row is removed iff its stage row is |
| Dedupe.UpgradeIsIdempotent | alembic/versions/5456426d7dd8_task_stage_unique_run_stage.py:29-48 | the dedupe changes nothing exactly on tables already unique, hence not its own result |
| ConfigWalk.WalkData | scripts/check_helm_config_contract.py:104-119 | the recursive loops compute the walk and terminate on the data, also over cyclic models |
| ConfigWalk.WalkIsSound | scripts/check_helm_config_contract.py:104-119 | every reported path is that of a key that is no field of the model reached there |
| ConfigWalk.WalkIsComplete | scripts/check_helm_config_contract.py:104-119 | every such key is reported under its dotted path |
| ConfigWalk.EmptyExactlyWhenDriftFree | scripts/check_helm_config_contract.py:12 | the report is empty iff no route through the models leads to a key that is no field |
| ConfigWalk.NeverMisreads | scripts/check_helm_config_contract.py:85-101 | a model that is found is all that the annotation declares |
| ConfigWalk.LookedInto | scripts/check_helm_config_contract.py:85-101 | models, lists, sets and tuples of models, and Optional of these, are looked into; nothing else is |
| ConfigWalk.UnknownKeyReported | scripts/check_helm_config_contract.py:104-119 | below each of them an unknown key is reported under its path |
| ConfigWalk.WalkDecides | scripts/check_helm_config_contract.py:12 | where the walk sees every declared model, an empty report is equivalent to every key being a real field of the model declared at its place |
| ConfigWalk.NoDriftMeansConformingExactly | scripts/check_helm_config_contract.py:85-119 | that equivalence holds for all data iff no reachable field declares a model where the walk does not look: X or None, dict values, nested collections, optional items |
| ConfigWalk.RunnerProxyIsBlind | services/terrapod/config.py:179 | the proxy field of RunnerConfig hides one |
| ConfigWalk.DeeperModelsAreBlind | scripts/check_helm_config_contract.py:85-101 | a dict of models, a list of lists of models and a list of optional models are such fields |
| Rubric.UnknownLevelInBand | services/ai_eval/cases.py:74-82 | an unknown level is in a band iff nothing known bounds the band from below |
| Rubric.RanksAreOrdered | services/ai_eval/cases.py:26-32 | low, medium, high, critical rank 0 to 3, letter case and blanks aside, and anything else -1 |
| Rubric.ScoreMustFlag | services/ai_eval/rubric.py:114-134 | the loop's hits decide score and pass |
| Rubric.MustFlagAsks | services/ai_eval/rubric.py:83-134 | the axis passes iff every expected address has a factor about it of at least its severity, and scores the share that has |
| Rubric.NoFalseRiskAsks | services/ai_eval/rubric.py:137-148 | the axis passes iff no factor is about a guarded or churning address, and scores the share of those left alone |
| Rubric.TextsAsk | services/ai_eval/rubric.py:151-178 | key facts must all, forbidden claims must none occur in the description, letter case aside; the scores are the shares |
| Rubric.PassIsFullMarks | services/ai_eval/rubric.py:102-178 | every axis score is in [0, 1], and 1 iff the axis passes |
| Rubric.OverallInRange | services/ai_eval/rubric.py:62-68 | for any axes, the overall score is in [0, 1], and 1 iff every weighted axis has full marks |
| Rubric.WeightsAndHardAxes | services/ai_eval/rubric.py:22-68 | the overall score is the weighted sum of the five, a hard pass the first three |
| Rubric.OverallOfScore | services/ai_eval/rubric.py:57-68 | overall is 1 iff all five axes pass, and at least 0.80 on a hard pass |
| Rubric.MoreFactors | services/ai_eval/rubric.py:114-148 | further risk factors never lower must_flag nor raise no_false_risk |
| Report.ScoreModel | services/ai_eval/report.py:114-172 | one score per run, in order; fails iff a run's case is unknown |
| Report.ModalIsGreatest | services/ai_eval/report.py:146 | the modal count is reached and never exceeded |
| Report.HeadlineMeaning | services/ai_eval/report.py:143-166 | the headline score is in [0, 1], and a hard pass has a successful repeat and scores at least 0.8, after rounding |
| Report.CaseScoreMeaning | services/ai_eval/report.py:143-166 | the rounded repeatabilities of every sweep: 0 without a success; else in [0, 1], and 1 iff the repeats that stray from the modal level, or fail, are fewer than one in 2000, or one in 2000 rounded up |
| Report.IdenticalEveryTimeExactly | services/ai_eval/report.py:7 | for every sweep with successes, 1.0 means that all levels agree, or all pass, iff nothing misses or what misses is not rounded away; hence for all of fewer than 2000 repeats |
| Report.SameVerdictExactly | services/ai_eval/report.py:6-7 | a perfect hard-pass figure is the same verdict every time iff nothing fails, or not all fails and it is not rounded away |
| Report.LongSweepHidesALevel | services/ai_eval/report.py:161-162 | a run of more than 2000 outputs, one of another level, that scores a perfect repeatability |
| Report.LongSweepHidesAFailure | services/ai_eval/report.py:161-162 | a run of more than 2000 outputs whose first fails: no hard pass, and a perfect hard-pass repeatability |
| Report.Weighted | services/ai_eval/report.py:61-80 | a group's rate times its size is its number of hard passes |
| Report.RateIsAShare | services/ai_eval/report.py:61-84 | the rate of a group is the number of its passing cases by that of its cases, 0 of none |
| Report.RateIsWeightedSplit | services/ai_eval/report.py:73-84 | the corpus rate is the count-weighted mean of train and holdout |
| Report.BySurface | services/ai_eval/report.py:93-97 | the grouping loop yields the hard-pass rate of exactly the surfaces that occur |
| Report.RateIsWeightedBySurface | services/ai_eval/report.py:93-97 | the corpus rate is the count-weighted mean of those rates |
| VcsMatch.HostFromRepoURL | migrate/cmd/terrapod-migrate/apply.go:611-623 | the loops compute the host, which never contains "/" or ":" |
| VcsMatch.HostIsFixed | migrate/cmd/terrapod-migrate/apply.go:611-623 | a returned host is its own host under "https://" iff it does not look like a git user |
| VcsMatch.SchemeStrippedExactly | migrate/cmd/terrapod-migrate/apply.go:256-264 | the host of scheme://host, with or without git@, port and path, is that host iff the scheme is https, http or ssh in lower case, or is itself the host |
| VcsMatch.HostEqualityExactly | migrate/cmd/terrapod-migrate/apply.go:214-220 | two URLs of any schemes have equal canonical hosts iff what stands for them - the host under a listed scheme, the scheme under another - agrees up to api. and letter case |
| VcsMatch.RemoteAgrees | migrate/cmd/terrapod-migrate/apply.go:611-623 | the host of git@host:path is that of every https, http or ssh URL of the host |
| VcsMatch.DifferentHostsMatch | migrate/cmd/terrapod-migrate/apply.go:232-246 | under an unlisted scheme connections to any two hosts match |
| VcsMatch.CanonicalExactly | migrate/cmd/terrapod-migrate/apply.go:266-270 | URLs compare without blanks around them, one slash at the end and letter case |
| VcsMatch.GitHostExactly | migrate/cmd/terrapod-migrate/apply.go:256-264 | hosts compare without a leading api. and letter case |
| VcsMatch.JudgeExactly | migrate/cmd/terrapod-migrate/apply.go:232-246 | a match needs the same provider, letter case aside, and the same URL or host; it is by URL iff the URLs are the same |
| VcsMatch.ApiTwin | migrate/cmd/terrapod-migrate/apply.go:251-264 | a host and its api. twin canonicalise alike |
| VcsMatch.Search | migrate/cmd/terrapod-migrate/apply.go:232-246 | the inner loop finds the first connection of the same provider that matches by URL or host |
| VcsMatch.ResolveVCSConnections | migrate/cmd/terrapod-migrate/apply.go:222-249 | every source ID maps to what the last plan connection carrying it resolved to, and nothing else is mapped |
| VcsMatch.UniqueIDs | migrate/cmd/terrapod-migrate/apply.go:231-247 | a connection with its own source ID maps to its first match and is unmapped iff none matches |
| VcsMatch.DocumentedChoice | migrate/cmd/terrapod-migrate/apply.go:214-218 | the documented preference chooses exactly one connection whenever any matches |
| VcsMatch.ExactURLWinsExactly | migrate/cmd/terrapod-migrate/apply.go:214-218 | the documented preference is followed iff no match by host is listed before the first by URL |
| VcsMatch.HostBeforeURL | migrate/cmd/terrapod-migrate/apply.go:240-242 | a listing on which it is not |

## Left out

- RetryClient.Do: does not model the replays and redirects of Go's own `http.Transport`, building the request, or the overflow of `time.Duration` at the thirty-fifth backoff.
- HttpRetry.RequestWithRetry: only `httpx.RequestError` is an exception of the model; an unknown method name (`getattr`) and other exceptions are not. The two loops are one method, since they differ only in how they wait.
- MigrationState.State.Load: unknown JSON fields are kept in `header` and `others`, where `json.Unmarshal` drops what the structs do not name.
- MigrationState.State.RollbackTargets: one loop for the six target functions, which are the same code over six record types; indices stand for pointers into the slice.
- Rollback.RunRollback: the six loops are one method called six times; report strings, `connections_left` and the serials shown in the report are not modelled.
- RollbackSafety.EveryDeleteIsLicensed: the guard is relative to the serial that was read; work that lands between the read and the delete is not seen by the code either. The retries of that read are not modelled.
- RoleCache.StalenessBound: a resolver's awaits are atomic steps for one principal; hashing, token lookup and the session store are inputs.
- Rewriter.RewriteCloudOrRemote: a written string is read back as written, so names that HCL must escape are not covered; HCL parsing and printing are the identity on token trees.
- Rewriter.Disk.RewriteDir: an unreadable directory and a crash inside `atomicWrite` are not modelled.
- Manifest.RoundTrip: names are sequences of characters; UTF-8 decoding with replacement is not modelled. SHA-256 is any function to 32 bytes.
- Publisher.PublishProvider: zip and OpenPGP are functions and a validity oracle; body size caps, and the effect of `?`, `#`, `%` and control characters in a name, version or platform on the URL, are not modelled, nor the route that a version such as `1/platforms/linux` happens to spell; the provider is taken to be registered and the caller to be allowed to write to it.
- StateUpload.Server.CreateAndUploadState: one client at a time; authentication, object-storage failures, encryption at rest and the discarding of stale plans are not modelled.
- Dedupe.Database.Upgrade: runs as one transaction, as Alembic runs it; `runs` and other tables do not appear.
- ConfigWalk.NoDriftMeansConformingExactly: a union of several types other than None declares nothing about keys, and a tuple is read by its first argument; `Annotated` is not modelled.
- ConfigWalk.WalkData: keys are strings; Pydantic's own validation, `_has_path`, the required keys and the environment check are not modelled.
- Rubric.OverallOfScore: exact reals, where the source rounds to three decimals and adds floats; the detail strings are not modelled.
- Report.ScoreModel: rates are exact reals before rounding, where the source divides floats; `by_tag`, rendering and `load_corpus` are not modelled.
- VcsMatch.ResolveVCSConnections: letter case is ASCII, here as in `Rewriter`, where Go's `EqualFold` and `ToLower` fold all of Unicode.
- `*BySourceID`, `RunTriggerByPair` and `NotificationByWorkspaceAndName` are linear searches that the proved cores do not call.
- `PublishModule` and `TarGzDir` only pack and upload a directory.
- The resource SDK, the writer, the web interface, other schema migrations, command-line flags and printed summaries.
