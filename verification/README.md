# Verified model of the workspace server

A Dafny model of the document-workspace server in `internal/app`: the request-id cache that makes
retried tool calls harmless, the quota-bounded file tools and Office commits, the path resolver,
access control, the A1 address parser and batch builder behind `sheet_set_cells`, and the rotation
of the audit log. `dafny verify dfyconfig.toml` checks everything.

## How it is organised

| file | what it holds |
|---|---|
| `Base.dfy` | results, decimal notation, sums, set sizes |
| `RequestCache.dfy` | the cache state, the locked regions of `call`, and the class `RequestIDCache` that runs them |
| `CacheProtocol.dfy` | any number of concurrent calls: each locked region, each end of an execution and each wake-up is one step; the invariant of every step |
| `CacheSafety.dfy` | single flight, replay fidelity, early loss, over every schedule; exactly when a retry is answered |
| `Progress.dfy` | the cache composed with the workspace locks and the engine semaphore: no deadlock, a bound on all schedules, mutual exclusion |
| `Deduplicate.dfy` | keys and their injectivity; the cache as a memory; a stream with retries equals the stream without them |
| `ConcurrentOnce.dfy` | the same for concurrent calls, class by class: the protocol joined with handlers of any number of interleaved steps, in runs of any length |
| `ToolStream.dfy` | a stream of the seven mutating tools on the workspaces |
| `RetriedService.dfy` | the whole service: the cache in front of the interleaved tools of `Service.dfy` |
| `Paths.dfy` | a file tree with symlinks, lexical cleaning, the resolver and its ancestor loop |
| `Quota.dfy` | the early-abort and the exact usage scan, and the decisions taken from them |
| `TextEdit.dfy` | the meaning of `fs_edit` |
| `Store.dfy` | each mutating tool as one step on the tree, with exact success conditions |
| `FileTools.dfy` | the same tools step by step in place (class `Files`), with temporary files, proved to agree with `Store.dfy` |
| `Symlinks.dfy` | edits of documents reached through symlinks: where the temporary file stands, and when their size is refused |
| `Access.dfy` | configured grants, personal workspaces, the class `AccessManager` |
| `Service.dfy` | interleavings of the tools by many callers, and quota over whole runs |
| `Effects.dfy` | what each step of the service, and a whole call made alone, does to the trees, without reference to the functions that run the tools; no call is stuck |
| `Isolation.dfy` | who changes a workspace, and who removes files from it, over whole runs |
| `Cells.dfy`, `Batch.dfy` | `normalizeCellAddress` and `sheetSetCellCommands` |
| `Audit.dfy` | the audit log: rotation, retention, packing |

Classes follow the source's own objects; their methods are proved against functions on values, and
the properties over runs are lemmas about those functions. In the cache an entry pointer is an index
into a sequence of entries that only grows, and Go's zero time is 0. Choices the model does not make
(which goroutine moves, what a handler returns, the order of a map iteration or a directory walk,
what the engine leaves behind) are carried by labels or parameters, and every result holds for all of
them.

## Hypotheses

- `Faithful`: what a successful encode produced decodes, and the empty byte string does not. Encoding
  itself may fail. Under it the branch of `call` that unlocks and deletes an undecodable entry is
  never reached (`CacheSafety.NeverDroppingAlways`).
- Cache keys are not empty; `Deduplicate.KeyNotEmpty` shows that `deduplicate` never makes an empty one, and `RetriedService` needs no such hypothesis.
- The results on "exactly once" (`ConcurrentOnce.ClassRunsOnce`, `ConcurrentOnce.ExactlyOnceConcurrently`,
  `RetriedService.RetriesDoNotAct`, `RetriedService.RetriesHearTheSame`) hold in runs of any length for every
  class of calls that loses nothing while it is wanted (`Unlost`): as long as one of its calls has still to
  enter or waits, no step drops its completed entry, by expiry or by eviction, and none of its calls is turned
  away by a cache full of executions. Where this fails for a retry it is not answered from the earlier call
  (`CacheSafety.RetryAnsweredIff`) and, unless a younger entry of its class is on file by then, it runs again
  (`CacheSafety.ActsIff`). It is enough that every call that enters while the class is wanted does
  so within the time to live of the results of the class, and that the keys with an execution that is open or
  ended less than the time to live ago, with its own, are no more than the slots (`Timely`,
  `ConcurrentOnce.TimelyIsUnlost`). For a sequential stream (`Deduplicate.CacheIsMemory`,
  `Deduplicate.ExactlyOnce`, `ToolStream.RetriesChangeNothing`) the same is asked of each class with calls
  still to come (`Deduplicate.TimelyIsUnlost`). `ConcurrentOnce.StoreAlways`, `ConcurrentOnce.EveryAnswerRan`
  and `RetriedService.RetriedServiceSafe` need none of it.
- The digest of canonical parameters is injective and contains no `|` (`SoundHashing`).
- Time is monotone and not zero.
- In `Progress`, handlers end, the engine ends, and no write target is the workspace root itself.
- Workspace roots are directories reached without symlinks (`CanonicalRoot`).

## What turned out differently from the documentation

- The server's own documentation (line 76 of the `README.md` at the root of its repository) says that
  `fs_edit` fails unless `old_text` appears exactly once. The code counts
  greedily and without overlaps, so `aa` in `aaa` counts once and is edited
  (`TextEdit.OverlappingMatchIsEdited`). The documented reading holds for every file if and only if
  `old_text` has no proper border (`TextEdit.ExactlyOnceIffBorderless`).
- The ancestor loop of the resolver has no exit when a write target is the workspace root itself. For
  a path inside the root it ends if and only if the path differs from the root
  (`Paths.AncestorLoopEnds`); the tools that then never return are those named `Hangs` in `Store`, and
  writing to `.` is an example (`Store.WriteToRootHangs`).
- On a workspace already over its byte cap the early-abort scan can let a replacement through that a
  full scan rejects (`Quota.OverCapReplacementDiffers`); `Quota.ReplacementDecisionIff` says exactly
  when the two agree.
- The same document (line 84) says that the output check of the Office tools excludes the temporary sibling. The
  code excludes it by the name the caller's path gives it; where that path leads through a symlinked
  directory the file stands elsewhere and is counted a second time, so that the check can refuse a
  document that would fit: `Symlinks.FittingDocumentRefused` is one, in a workspace of nine bytes that would
  hold seven under a cap of twelve. `Store.OutputAllowedIff` and `Symlinks.EditTooLargeIff` say exactly when. It
  never lets one through that does not fit.
- In the same situation the temporary copy of an edit need not stand in the workspace: it does if and only
  if the directory of the supplied path resolves to a place inside the root (`Symlinks.TempStaysInsideIff`);
  `Symlinks.TempOutside` is a workspace and a path for which it stands outside. It is removed in every case
  (`FileTools.EditAllOrNothing`).

## Model

| member | source | states |
|---|---|---|
| RequestCache.RequestIDCache.RemoveExpired | internal/app/idempotency.go:106-112 | the loop leaves exactly the entries in flight or younger than the time to live |
| RequestCache.RequestIDCache.RemoveOldestCompleted | internal/app/idempotency.go:114-130 | removes a completed entry than which none is older, and reports failure exactly when nothing is completed or the oldest has the empty key |
| RequestCache.RequestIDCache.Enter | internal/app/idempotency.go:42-74 | the locked region at the head of the loop does what the protocol's step says, for some admissible victim |
| RequestCache.RequestIDCache.Complete | internal/app/idempotency.go:76-103 | the locked region after an execution settles the entry, closes it once, and keeps it on file only when it can be replayed |
| CacheProtocol.StepKeepsInv | internal/app/idempotency.go:40-104 | every step of every call keeps the protocol's invariant: one owner per entry in flight, settled entries match their ended execution, filed entries can be replayed, the limit holds |
| CacheSafety.NeverDroppingAlways | internal/app/idempotency.go:60-64 | in every run with a faithful codec no call ever takes the path that deletes an undecodable entry outside its first locked region |
| CacheSafety.SingleFlightAlways | internal/app/idempotency.go:40-104 | in every reachable state at most one registered execution runs per key, each entry in flight has an executing owner and an open channel, each channel is closed once and exactly when its execution is over, and the map is within its limit |
| CacheSafety.BypassAlwaysFull | internal/app/idempotency.go:66-70 | in every run an unregistered execution starts only while all `limit` slots are in flight |
| CacheSafety.ReplaysFaithful | internal/app/idempotency.go:44-59 | an answer flagged deduplicated is the decoded copy of the result, with the error, of one ended execution of another call under the same key, and a Go error reaches only calls that were waiting when it happened |
| CacheSafety.FoundAlwaysYoung | internal/app/idempotency.go:43-59 | in every run a call answered on entry is answered without error from an entry younger than the time to live, filed by an execution under the same key that ended without error |
| CacheSafety.EarlyLossOnlyWhenFull | internal/app/idempotency.go:66-70 | over whole runs a completed result leaves the map only by expiry, or from a full cache in which every other entry is in flight or was completed no earlier |
| CacheSafety.RegionLoses | internal/app/idempotency.go:106-130 | a single entry region drops an unexpired completed entry only as an oldest one of a full cache |
| CacheSafety.FiledIsReplayed | internal/app/idempotency.go:44-59 | until then every call under its key is answered from it |
| CacheSafety.FiledIff | internal/app/idempotency.go:44-74 | a step takes a completed entry off file exactly when a call enters and finds it expired, or needs its place in a full cache |
| CacheSafety.ActsIff | internal/app/idempotency.go:44-74 | a call that enters runs its handler exactly when no unexpired entry, completed or in flight, is under its key |
| CacheSafety.RetryAnsweredIff | internal/app/idempotency.go:44-74 | after any run, a call is answered from a once completed entry of its key if and only if no step since has dropped that entry, its own included |
| Progress.NoDeadlock | internal/app/server.go:406-417 | a state in which some call has not returned allows a move, because waits go from the cache slot to one workspace lock to the semaphore |
| Progress.RetriesBounded | internal/app/idempotency.go:41-54 | among n calls each goes round its loop at most n - 1 times, every retry charged to the ended execution of a distinct other call |
| Progress.MoveLowersRank | internal/app/idempotency.go:40-104 | every move but the clock's lowers the rank of its own call and leaves the others alone |
| Progress.EveryRunProgresses | internal/app/office.go:34-42 | from the start n calls make at most n(2n + 12) moves in any schedule, and until all have returned one more is possible |
| Progress.Receptive | internal/app/idempotency.go:41-103 | whatever happens is provided for: time may pass, a call may enter, a handler may end with any result and error, and a waiting call goes on exactly when what it waits for has ended |
| Progress.EngineServes | internal/app/office.go:34-42 | a call under its lock can make all its engine runs if a permit is free when it begins |
| Deduplicate.StringKeyInjective | internal/app/idempotency.go:149-151 | two keys are equal exactly when user, request id, tool and digest are, although a request id may contain the separator |
| Deduplicate.SameKeyIff | internal/app/audit.go:188-204 | two deduplicated calls share a key exactly when identity, tool and canonical parameters agree |
| Deduplicate.CacheIsMemory | internal/app/idempotency.go:40-104 | a stream of calls of any length that loses no entry it still wants sees the same store and replies as a memory of kept results, Go errors and encoding failures included |
| Deduplicate.TimelyIsUnlost | internal/app/idempotency.go:106-130 | a stream loses none if each repeat enters within the time to live of the earlier calls of its class and the recent keys fit the slots meanwhile |
| Deduplicate.MemoryIsOnce | internal/app/audit.go:188-204 | such a memory amounts to running the stream without its repeats and answering each repeat with the copy its first call was given |
| Deduplicate.ExactlyOnce | internal/app/audit.go:188-204 | hence passing such a stream with its retries through `deduplicate` gives the store and, up to the codec, the replies of running only the first call of each class |
| Deduplicate.KeyNotEmpty | internal/app/idempotency.go:149-151 | no key is the empty string, which the eviction takes for "none" |
| Deduplicate.DeduplicatedIff | internal/app/audit.go:188-213 | a call is deduplicated exactly when the cache is on, its tool is one of the seven, the user is known, and there are a request id and encodable parameters |
| ConcurrentOnce.StoreAlways | internal/app/idempotency.go:40-104 | in every run, losses and all, of calls whose handlers take any number of interleaved steps the store is what those steps alone make of it |
| ConcurrentOnce.ClassRunsOnce | internal/app/idempotency.go:40-104 | in a run of any length in which a class loses nothing while it is wanted, none of its handlers acts after another has begun, unless that one has ended with a result that could not be kept |
| ConcurrentOnce.EveryAnswerRan | internal/app/idempotency.go:44-103 | in every run, losses and all, a call that has returned was answered by its own handler or, as a copy, by that of another call under its key |
| ConcurrentOnce.ExactlyOnceConcurrently | internal/app/idempotency.go:40-104 | where moreover the results of the class can be kept, one of its handlers acts however often and concurrently it is called, and all its callers get the same answer |
| ConcurrentOnce.TimelyIsUnlost | internal/app/idempotency.go:106-130 | a class loses nothing while it is wanted if every call that enters meanwhile does so within the time to live of its results and the recent keys fit the slots |
| ToolStream.RequestKeys | internal/app/audit.go:188-213 | every mutating tool call with a request id and encodable parameters is deduplicated, under the class of its user, request id, tool and canonical parameters |
| ToolStream.RetriesChangeNothing | internal/app/audit.go:188-204 | for the seven tools on the workspaces, a stream with retries that loses no entry it still wants leaves the workspaces as the stream without its repeats does, and answers each repeat with the copy its first call was given |
| RetriedService.ClassIff | internal/app/audit.go:188-204 | two calls of the service are of one class exactly when user, request id, tool and canonical parameters agree |
| RetriedService.RunIsSchedule | internal/app/audit.go:188-204 | in every run the workspaces end up as in a run of the service without any cache whose steps are those of the calls that the cache let through, and each of these that ended said whether its tool had succeeded |
| RetriedService.HandlerStepIff | internal/app/audit.go:188-204 | a handler behind the cache may take exactly the steps of its call in the service, and its result is an error result exactly when its tool failed |
| RetriedService.HandlerCanAct | internal/app/server.go:132-148 | the handler of a call that has not ended can act, or waits for one that can, unless the call aims at the root |
| RetriedService.RetriesDoNotAct | internal/app/audit.go:188-204 | whatever the interleaving and however long the run, two calls of a class that loses nothing while it is wanted both take a step there, checks before the lock included, only if the earlier has ended with a result that cannot be encoded |
| RetriedService.TimelyIsSpared | internal/app/idempotency.go:106-130 | a class is such if its retries enter in time, while there is room |
| RetriedService.RetriesHearTheSame | internal/app/idempotency.go:44-103 | and where its results can be encoded, all callers of such a class that have returned were told the same, without a Go error |
| RetriedService.RetriedServiceSafe | internal/app/server.go:132-148 | quota, isolation and retention of files hold with retries and cache in place in every run, also where entries expire, are evicted or cannot be encoded |
| Paths.CleaningPreservesMeaning | internal/app/workspace.go:33-44 | lexical cleaning does not change which file a relative path walks to, where no symlink or missing name is involved |
| Paths.JoinSplits | internal/app/workspace.go:33-44 | cutting a text at its slashes undoes joining its pieces; `Paths.SplitJoins` is the converse |
| Paths.CheckExistingParents | internal/app/workspace.go:81-94 | the loop visits exactly the ancestors from the parent up to the root and ends by decreasing depth, for proper descendants of the root |
| Paths.AncestorLoopEnds | internal/app/workspace.go:81-94 | for a path inside the root the loop ends if and only if the path is not the root |
| Paths.ResolveContained | internal/app/workspace.go:33-79 | whatever the supplied text and the symlinks in the tree, an accepted path is inside the root |
| Paths.ResolveTargetExact | internal/app/workspace.go:33-79 | a write target is accepted exactly when its text stays inside, it is not the root, and no component from the root down is a symlink or a file on the way |
| Paths.TargetIsPhysical | internal/app/workspace.go:52-79 | for an accepted write target no existing component is a symlink, so that its lexical and physical places coincide |
| Paths.ResolveExistingIff | internal/app/workspace.go:33-79 | an existing path is accepted exactly when its text stays inside and it leads, through symlinks or not, to a place under the root, and as that place |
| Paths.StaysInsideIff | internal/app/workspace.go:33-44 | a text stays inside exactly when it does not begin with a slash of either kind and no prefix of it climbs above its start |
| Quota.UsageExcluding | internal/app/files.go:264-295 | the early-abort walk returns the usage of the prefix at which a cap is first passed |
| Quota.UsageExactExcluding | internal/app/files.go:300-319 | the exact walk returns the usage of all visited files |
| Quota.ExactScanIsUsage | internal/app/files.go:300-319 | the exact scan measures the files of the workspace, whatever the walking order |
| Quota.EarlyScanMeaning | internal/app/files.go:264-295 | the early scan sees everything, or both scans are over a cap |
| Quota.EarlyScanExactForNewFiles | internal/app/files.go:183-198 | for a new file the early-abort decision equals the full-scan decision on every workspace and with either cap disabled |
| Quota.EarlyScanExactWithinCaps | internal/app/files.go:183-198 | for a replacement they agree whenever the workspace is within its caps |
| Quota.ReplacementDecisionIff | internal/app/files.go:183-198 | in general they agree for every new size if and only if the byte cap is off, the early scan saw every byte, or already so many that nothing fits |
| Quota.OverCapReplacementDiffers | internal/app/files.go:297-299 | a workspace over its cap, a walk of it, and the replacement of one of its files on which they differ |
| Quota.AllowedKeepsCaps | internal/app/files.go:183-198 | an allowed write keeps a workspace within its caps |
| TextEdit.EditText | internal/app/files.go:329-336 | the greedy count and the single replacement give the specified result |
| TextEdit.EditMeaning | internal/app/files.go:321-337 | an edit succeeds exactly where the text splits into p, old, s with old leftmost there and absent from s; it then writes p, new, s, of the right length; and it reports "not found" exactly when old does not occur |
| TextEdit.ExactlyOnceIffBorderless | internal/app/files.go:329-335 | success means "exactly one position" for every file if and only if the old text has no proper border |
| TextEdit.OverlappingMatchIsEdited | internal/app/files.go:329-336 | the smallest counterexample |
| Store.WriteExact | internal/app/files.go:129-178 | exactly when `fs_write` succeeds; a success changes the target only, a failure nothing, and it never returns exactly when the target is the root |
| Store.WriteKeepsCaps | internal/app/files.go:148-156 | a successful write keeps a workspace within its caps |
| Store.WriteWhy | internal/app/files.go:129-178 | which error a failing write reports, and when |
| Store.WriteFitsIff | internal/app/files.go:148-156 | a write is let through exactly when the caps hold afterwards, a replacement in a workspace over its caps excepted |
| Store.WriteToRootHangs | internal/app/workspace.go:81-94 | a write to `.` never returns |
| Store.EditToolExact | internal/app/files.go:321-337 | `fs_edit` succeeds exactly when the file can be read and written back and splits around the old text into something that may be stored; it then rewrites that file alone, with that text; a failure changes nothing, and every call returns |
| Store.EditWhy | internal/app/files.go:321-337 | which error a failing edit reports: nothing to look for, unreadable, not found, or found in no single place |
| Store.RenameEffect | internal/app/files.go:357-358 | a rename onto a free place re-keys the subtree one to one: contents, bytes and number are conserved, relative paths kept, and the rest untouched |
| Store.MoveExact | internal/app/files.go:339-359 | exactly when `fs_move` succeeds, that a success is such a move of the file or the whole subtree, and that a failure adds at most directories |
| Store.MoveWhy | internal/app/files.go:339-359 | which error a failing move reports |
| Store.DeleteExact | internal/app/files.go:361-384 | `fs_delete` succeeds exactly for an existing regular file, with deletion enabled and confirmed, and removes that file alone |
| Store.DeleteWhy | internal/app/files.go:361-384 | which error a failing delete reports |
| Store.CommitOfficeExact | internal/app/files.go:227-258 | the end of an Office call replaces the target alone or changes nothing, leaves no temporary file wherever that stood, and keeps the caps whatever the stale `isNew` says |
| Store.OutputAllowedIff | internal/app/files.go:227-258 | for a correct `isNew` the output check passes exactly when the workspace afterwards is within its byte cap, and a new file within the count cap, over the caps as well; a temporary copy that its name does not hit is counted once more |
| Store.CommitIff | internal/app/files.go:227-258 | whatever the stale `isNew` says, the end of an Office call succeeds exactly when the output is acceptable, may stand there, and fits in numbers of bytes and files |
| Store.CreatePrecheckExact | internal/app/server.go:390-402 | exactly when `docCreate` goes on to the lock: an acceptable target that is missing, or may be replaced, while there is room; alone it never replaces a document unasked |
| Store.EditPrecheckExact | internal/app/server.go:440-447 | exactly when an edit goes on to the lock, and for which file |
| Store.RoomIff | internal/app/files.go:200-224 | there is room for a document exactly when the byte cap holds and, for a new one, the other with one file more |
| FileTools.Files.Write | internal/app/files.go:129-178 | the step-by-step write, with its temporary file and its rename, agrees with the one-step function: the target alone on success, nothing on failure |
| FileTools.Files.Edit | internal/app/files.go:321-337 | likewise for the edit: on success the file is split around the old text at one place and put together around the new |
| FileTools.Files.Move | internal/app/files.go:339-359 | likewise for the move: on success the subtree is re-keyed and every content conserved, on failure no file has changed |
| FileTools.Files.Delete | internal/app/files.go:361-384 | likewise for the delete: one file fewer on success, nothing on failure |
| FileTools.Files.CheckOfficeOutputAllowed | internal/app/files.go:227-258 | the output check decides as specified, on an exact scan without the path it was given |
| FileTools.Files.CreateDocument | internal/app/server.go:406-426 | `docCreate` from the lock on, up to two engine runs, the checks, the rename and the removal on every way out: it succeeds exactly as `CreateAllOrNothing` says, and the target then holds what the last run left |
| FileTools.Files.EditDocument | internal/app/server.go:449-470 | `docEdit` and `sheetSetCells` from the lock on, likewise |
| FileTools.CreateAllOrNothing | internal/app/server.go:409-426 | it succeeds exactly when every run ended well, the last of them left an acceptable document, the target is no directory and the document fits; the target alone is then replaced, by what that run left; otherwise the workspace is as before, but for a directory of the target; no temporary file stays, and the caps are kept |
| FileTools.EditAllOrNothing | internal/app/server.go:449-470 | the same for the editing tools, wherever the temporary file stands: on success the document holds what the engine made of its copy |
| FileTools.ChosenTempFits | internal/app/server.go:448-450 | the place and name an edit chooses beside the path it was given, through symlinks or not, are such |
| Symlinks.TempStaysInsideIff | internal/app/server.go:448-450 | a free place chosen for the temporary file of an edit is in the workspace if and only if the directory of the supplied path resolves inside the root |
| Symlinks.TempOutside | internal/app/server.go:448-454 | a workspace with a symlink out of it and one back, whose document is accepted under a path for which that place is outside |
| Symlinks.EditTooLargeIff | internal/app/server.go:449-470 | an edit whose engine ended well is refused for its size if and only if the workspace afterwards, its temporary copy counted again where its place is not its name, would pass the byte cap |
| Symlinks.FittingDocumentRefused | internal/app/files.go:227-258 | a workspace, a path through a symlinked directory and an output that would fit and is refused |
| Access.AccessManager.constructor | internal/app/access.go:29-40 | the nested loops fill the grants table of the configuration |
| Access.AccessManager.Grant | internal/app/access.go:53-65 | a grant is the personal workspace, a configured membership, or an error, as specified |
| Access.AccessManager.List | internal/app/access.go:42-51 | the list holds the personal workspace and the memberships, each once, sorted by id |
| Access.GrantsOfMeaning | internal/app/access.go:29-40 | a validated configuration grants a user exactly the memberships it lists |
| Access.WorkspaceIDIff | internal/app/access.go:71-81 | which ids a configuration may declare, character by character |
| Access.ListAgreesIff | internal/app/access.go:42-65 | granting by a non-empty id agrees with the list exactly unless the table files another grant under the user's personal id |
| Access.GrantIffListed | internal/app/access.go:42-65 | with a validated configuration a non-empty id is granted, with that role, exactly when it is listed |
| Access.AuthorizeIff | internal/app/server.go:132-148 | with a validated configuration a request is granted exactly the user's own workspace, as its owner, or a configured one in the user's role there, where writing takes an editor or owner and deleting an owner |
| Access.ListedIsRoleIff | internal/app/access.go:29-40 | every configured membership is a role if and only if nobody is listed in one workspace with different roles; the last listing counts |
| Access.PersonalInjective | internal/app/access.go:43-44 | personal ids of different users differ |
| Service.EveryStep | internal/app/server.go:132-148 | every step keeps the tree sound and the caps, and touches one workspace at most |
| Effects.DirectDoes | internal/app/server.go:243-294 | the step of an authorised file tool succeeds exactly under the tool's condition, and its workspace then holds the files written, edited, moved or reduced; a failure, or a request that is not authorised, changes no file |
| Effects.CheckDoes | internal/app/server.go:390-402 | the check before the lock changes no file and lets the call go on exactly for the target, and under the conditions, it should |
| Effects.EngineDoes | internal/app/server.go:409-418 | what the engine leaves stands in the temporary file while the call holds the lock |
| Effects.CommitDoes | internal/app/server.go:419-426 | the commit succeeds exactly when the output is acceptable, may stand there and fits; the target then holds it, else the workspace is as before the engine ran |
| Effects.OfficeWritesOutput | internal/app/server.go:406-426 | whatever other calls do in between, an Office call leaves its workspace as it was when its engine ran, with the target replaced by exactly what the engine left if it succeeds |
| Effects.CallCanMove | internal/app/server.go:132-148 | a call that has not returned has a next step, or waits for a lock whose holder has one, unless it aims at the root of its workspace |
| Effects.HandleDoes | internal/app/server.go:243-294 | a file tool called alone does and says the same |
| Effects.HandleCreates | internal/app/server.go:380-426 | a `doc_create` called alone answers without error exactly when it is let through, all runs end well and the last leaves a document that is acceptable and fits, which the target then holds |
| Effects.HandleEdits | internal/app/server.go:432-470 | likewise `doc_edit` and `sheet_set_cells` |
| Service.QuotaAlways | internal/app/server.go:393-426 | workspaces that start within their caps are within them at every lock-free point of any interleaving of the seven tools, although `isNew` may be stale |
| Isolation.IsolationAlways | internal/app/server.go:132-148 | along every run each step that changes a workspace belongs to a request entitled to write there, and each step that costs it a file is an `fs_delete` entitled to delete there |
| Isolation.PersonalIsolation | internal/app/access.go:42-65 | every run changes the personal workspace of user n by steps of user n alone |
| Isolation.SharedIsolation | internal/app/server.go:132-148 | every run changes a shared workspace by steps of configured editors and owners alone, and removes files from it by `fs_delete` steps of configured owners alone |
| Isolation.SharedIffRole | internal/app/server.go:132-148 | a request may change a shared workspace if and only if it names it and comes from a configured editor or owner, an owner if it deletes |
| Isolation.PersonalIffOwn | internal/app/access.go:53-65 | a request may change the personal workspace of user n if and only if it comes from user n and names it or none |
| Isolation.FilesOnlyDeleted | internal/app/files.go:361-384 | over every run the number of files of a workspace falls by at most the number of `fs_delete` steps by its owners |
| Service.OfficeCallAtomic | internal/app/server.go:406-426 | when an Office call releases its lock its workspace holds the files it held when the lock was taken, with at most the target replaced |
| Isolation.ServiceSafe | internal/app/config.go:135-149 | quota, isolation and retention of files together, for any server started with a validated configuration |
| Cells.NormalizeCellAddress | internal/app/server.go:591-638 | the parser accepts exactly the A1 references on the sheet, leading zeros included, and returns the canonical name of the denoted cell |
| Cells.ReadColumn | internal/app/server.go:613-619 | the per-letter cut-off rejects exactly the columns above XFD and keeps the accumulator below 16384 * 26 + 27 |
| Cells.ReadRow | internal/app/server.go:620-633 | the per-digit cut-off likewise for rows, below 1048576 * 10 + 10 |
| Cells.ColumnNumberName | internal/app/server.go:608-619 | the bijective base-26 reading of letters is inverted by the printing of a column |
| Cells.NormalizedCanonical | internal/app/server.go:591-638 | two accepted addresses normalise alike exactly when they denote the same cell |
| Cells.NormalizedIdempotent | internal/app/server.go:591-638 | normalising twice is normalising once |
| Cells.SheetCorners | internal/app/server.go:473-477 | A1 and XFD1048576 are the cells in column 1, row 1 and column 16384, row 1048576, and anchors, case and leading zeros do not matter |
| Cells.BeyondCorners | internal/app/server.go:608-637 | XFE1, A1048577 and A0 denote no cell |
| Batch.SheetSetCellCommands | internal/app/server.go:531-574 | the builder succeeds exactly on valid batches and then emits one command per cell, in order: `set`, at the canonical name of the cell, its value under `value` and its other properties as given; otherwise it names the first cell that is at fault, and how |
| Batch.SheetNameIff | internal/app/server.go:576-589 | which sheet names are accepted, character by character |
| Batch.CommandPathsDistinct | internal/app/server.go:545-571 | the emitted paths are pairwise distinct |
| Batch.BatchFillsCells | internal/app/server.go:545-571 | after a valid batch every cell it names holds its value and properties, and what else it held before |
| Batch.BatchLeavesOthers | internal/app/server.go:545-571 | and every cell it does not name is as it was |
| Batch.PermutedBatchSameSheet | internal/app/server.go:531-574 | any permutation of the cells leaves the same sheet |
| Audit.Auditor.constructor | internal/app/audit.go:43-68 | a new auditor tracks the size of the file it found or created |
| Audit.Auditor.Shift | internal/app/audit.go:96-104 | the descending rename loop moves every file up to the limit one number up, missing numbers included, drops the one at the limit and touches no other; without backups the current file goes alone |
| Audit.Auditor.Rotate | internal/app/audit.go:93-108 | a rotation is that shift followed by an empty current file, or by silence when it cannot be opened |
| Audit.Auditor.Record | internal/app/audit.go:70-90 | one record is appended whole, after such a shift exactly when a positive limit would be passed, and the size follows the file |
| Audit.RotationPushesFront | internal/app/audit.go:93-108 | on the numbered files a rotation is "push front, truncate", and files above the limit are not touched |
| Audit.RetainedIsSuffix | internal/app/audit.go:70-108 | in every run the backups from the highest number down, then the current file, read as a suffix of everything ever written, cut between records |
| Audit.NothingLostWhileOpen | internal/app/audit.go:70-90 | while the file can be reopened everything recorded is written, in order |
| Audit.NothingAbove | internal/app/audit.go:96-104 | in every run no backup numbered above the configured number appears, goes or changes |
| Audit.PackedAlways | internal/app/audit.go:82-90 | in every run, failed reopens included, the files begun in the run, and those found that fitted, fit the limit or are a single record, and the two files either side of a rotation together exceed it |
| Audit.FreshLogFits | internal/app/audit.go:82-90 | from an empty directory every file of every run fits the limit or is a single record |
| Audit.RetainedBounds | internal/app/audit.go:82-108 | the bytes on disk after any run are at most what the files may hold, and at least half of what those kept from the run may hold |
| CacheSafety.FiledIsErrorFree | internal/app/idempotency.go:76-98 | supporting: what is on file completed came from an execution under that key that ended without error at the recorded time |
| Isolation.LockExcludes | internal/app/access.go:67-69 | supporting: while a call holds a workspace lock no other call's step touches that workspace |
| Progress.LocksSafeFromStart | internal/app/office.go:34-42 | supporting: with the rules of the locks two holders of a workspace lock are both readers and the engine never serves more calls than it has permits |

## Left out

- HTTP, the MCP transport, logging, health endpoints, `main.go`, `DownloadSigner`, the resolver of signed users, configuration defaults: plumbing around the modelled core.
- Listing, reading limits, searching and links: they change nothing and would only add easy members.
- `fs_read` appears only as the read inside `fs_edit`, with the server's own limit.
- Hashing, JSON and base64: the digest is any injective function on canonical parameters, the canonical form any partial function; distinct raw JSON texts may share a canonical form.
- The archive-size sum in `checkOfficeInput` and the shape checks on document paths and operations: choices carried by labels (`inputOk`, `shapeOk`).
- Calls that never return (a write to the root itself) take no step in `Service`.
- OfficeCLI: an arbitrary function of the document it finds at the temporary path, that writes a regular file there, making its directory if need be, or removes it, and succeeds or fails; it may not write elsewhere or leave a symlink.
- Partial I/O errors, full disks, panics and other processes; one exception is reopening the audit file, which may fail.
- Integer widths: sizes, counts and times are unbounded.
- Directory sizes and permission bits: a directory that is replaced has size 0.
- Temporary names are assumed fresh, and the temporary file of `fs_write` is not seen by the unlocked checks of other calls: the write is one step there.
- Symlinks in the run-level results of `Service`: the tree is assumed free of them from the base directory down, and the tools are shown never to make one; the resolver and the single tools are treated with symlinks below the root, documents reached through them included.
- "`doc_create` without overwrite never replaces a file" under concurrency: existence is read before the lock, so it holds only for one call at a time (`Store.CreatePrecheckExact`).
- The workspace lock of `AccessManager` is modelled by its rules (readers, writers, an announced writer) and not as an object.
- `AccessManager.List` sorts while it collects, where the source sorts afterwards; the members and the order of the result are the same.
- The unlocked reads at the head of `Auditor.Record`, and an event that cannot be encoded.
- Unicode case folding: property names are compared with `value` by its ASCII letters, which no other characters fold to. Strings are sequences of code points.
- CacheProtocol.StepKeepsInv: assumes the two hypotheses on codec and keys above; without them an entry can be deleted that another call has just registered.
- ToolStream.RetriesChangeNothing: takes each tool call as one step of a stream; interleaved calls are the matter of RetriedService.
- RetriedService.RetriesDoNotAct: speaks of a class as a whole; where one retry comes too late, or is turned away by a full cache, nothing is said of the others of its class, while `CacheSafety.RetryAnsweredIff` still says of each whether it is answered from the first.
- RetriedService.RetriesHearTheSame: says nothing of calls that have not returned, such as a write to the root, and nothing where a result of the class cannot be encoded.
