# Command center protocols, modelled and proved in Dafny

The command center is a FastAPI service. Its durable logic is a set of small protocols over
database rows and in-memory maps, worked on by phones, nodes, background sweeps and threads
that interleave freely. This project models the ones with the most state and proves what they
keep over every run.

Each handler or loop of the source that changes state is a method (of a class where it works
on stored state) whose contract ties the new state to a specification function; runs are
sequences of those steps with a clock, and the main results are lemmas about every run. Pure
code is modelled by functions. Times are integers in microseconds (seconds for provisioning
tokens), or reals where the source uses floating-point seconds.

| file | what it models |
|---|---|
| `RateLimiter.dfy` | the token bucket on signal posts |
| `NodeTasks.dfy`, `NodeTaskRuns.dfy` | node update and factory-reset tasks: the handlers and sweep; every interleaving of them |
| `NodeTaskEffects.dfy` | what each of those handlers does to which row, in plain terms |
| `NodeTaskRaces.dfy` | one task row under handlers that overlap between their read and their write |
| `MemoryInjection.dfy`, `MemoryDuplicates.dfy`, `MemoryEffects.dfy`, `MemoryEndpoint.dfy` | batch injection of memories: in-batch dedup, keyed upsert and counters; the comparison by similarity; whose rows change; the endpoint on the table |
| `Strings.dfy`, `Slugs.dfy`, `SlugContents.dfy` | slugs, what stands in them, and unique slugs |
| `Routines.dfy`, `RoutineContents.dfy` | the routine table and the map a node pulls; both field by field |
| `Base64Url.dfy`, `OAuthSecrets.dfy` | base64url, stored OAuth secrets, PKCE, relay state |
| `MobileChat.dfy`, `MobileChatAnswers.dfy`, `MobileChatWording.dfy` | the tool loop of the mobile chat and its event stream; what the stream says and ends with; its wording |
| `HlsPackager.dfy`, `HlsProgress.dfy` | the manager thread of an HLS packager against start and stop; how it gets on |
| `ExpiringRequests.dfy` | install, uninstall, revert and Bluetooth requests with deadlines |
| `NodeAuthCache.dfy`, `SchemaCache.dfy` | two caches with a time to live |
| `Callbacks.dfy` | callback jobs on the node plane and the server plane |
| `Provisioning.dfy` | provisioning tokens, node self-registration, creation and deletion of nodes by hand |
| `Options.dfy`, `Runs.dfy` | optional values; runs of timed events |

Some results say where the code is weaker than its comments or a first reading suggest:

- Upserting the reduced batch is the same as upserting every item in order only if no pair with
  an empty key repeats (an empty key never upserts), and, counting cached embeddings, only if no
  item rewrites the text of an embedded row for a later item to restore it.
- A new household-wide memory is its own best match, so the similarity layer retires nothing for
  it unless an exact duplicate stands before it in the table; memories that are merely 0.9 similar
  stay, and so do exact duplicates that stand after it.  A user's own new memory, which is not
  among the rows it is compared with, retires the first of the most similar household-wide ones
  whenever there is any.
- Among the task handlers only the node's failure report is a conditional update. A cancel,
  heartbeat or sweep that read the row while it was open can still overwrite its end; over every
  run of overlapping handlers nothing else can, and there is a run in which a stale heartbeat
  reopens a cancelled task.
- A dispatch reads a pending update before it writes, so two overlapping heartbeats can be given
  the same update; a task can be handed out again exactly if another dispatch had read it before
  the first one landed.  In the same way two overlapping posts on one key can share a token.
- A packager torn down while its manager thread is mid-launch can leave an ffmpeg running;
  this is exactly the moment in which it can, and a run from nothing reaches it.
- If the very first launch of a packager fails, every later start() reuses the dead packager
  until stop(); if a respawn fails, the next start() replaces it.
- A late upload turns a completed install into an expired one, and an upload that announces a
  restart reopens a completed one; only expiry is final, and an outcome lasts exactly as long
  as the calls are polls, on-time verifies and on-time uploads of the same outcome.
- A callback result overwrites whatever the job was, expired or finished, but a result without
  a block leaves the block of an earlier one standing.
- A node comes into the table by a token or by an administrator, and a deleted node can come
  back in another household.

## Model

| member | source | states |
|---|---|---|
| RateLimiter.Limiter.RateOk | app/api/signals.py:134-147 | One post refills and caps the bucket of its household and source, takes a token if there is one, and answers accordingly; what any other household, or any other source, may do at any time stays as it was |
| RateLimiter.BucketsStayCapped | app/api/signals.py:138-147 | Along any trace with a clock that never runs backwards every bucket holds between 0 and 60 tokens |
| RateLimiter.WindowBound | app/api/signals.py:134-147 | In any trace over all keys, a window of length d lets at most 60 + d calls of one key through |
| RateLimiter.AdmittedExactlyWhenRoom | app/api/signals.py:138-147 | A call is let through if and only if doing so keeps every window that ends at it within 60 plus its length; the lazy bucket is the greedy sliding-window limiter |
| RateLimiter.DroppingRefusedCallsChangesNothing | app/api/signals.py:136-147 | Deleting any refused calls on a key, and any calls on other keys, leaves every remaining verdict on the key as it was |
| RateLimiter.PoliteCallersAreNeverRefused | app/api/signals.py:138-147 | A source whose calls are at least a second apart is never refused |
| RateLimiter.KeysNameHouseholdAndSource | app/api/signals.py:136 | Two posts share a bucket if and only if they are of the same household and name the same source, where an absent or empty one is "external" |
| RateLimiter.OnlyItsOwnPostsCount | app/api/signals.py:134-147 | In any history of posts, the answers to one source of one household are exactly what they would be if nobody else had ever posted |
| RateLimiter.OverlappingCallsShareAToken | app/api/signals.py:136-146 | Two calls that both read a bucket before either writes spend together what one would, so the second passes where it should not exactly if there was one token but not two |
| NodeTasks.TaskService.HandleRequestUpdate | app/api/node_updates.py:122-168 | Unknown node, an update already open (naming it and its state), no version to install, or a new pending task |
| NodeTasks.TaskService.HandleReportFailed | app/api/node_updates.py:175-221 | A node fails only its own update task, and only an open one; the message is cut at 1000 characters, a terminal task is left alone and answered with a conflict |
| NodeTasks.TaskService.HandleCancel | app/api/node_updates.py:246-275 | Cancelling fails an open task of either kind and refuses a terminal one |
| NodeTasks.TaskService.HandleHeartbeat | app/admin.py:297-342 | A heartbeat refreshes the node, then reconciles its open task, then dispatches a queued one |
| NodeTasks.TaskService.ReconcileOpenTask | app/api/node_updates.py:342-394 | The target version settles the newest open task; any other moves it to in_progress once, after the grace period, and afterwards leaves the row and its timestamp untouched |
| NodeTasks.TaskService.DispatchPendingTask | app/api/node_updates.py:309-339 | An idle node gets its oldest pending update, which becomes dispatched; a busy node gets nothing |
| NodeTasks.TaskService.HandleCreateReset | app/admin.py:473-561 | At most one open factory reset per node; the new one is dispatched if its message was published |
| NodeTasks.TaskService.HandleReportReset | app/admin.py:568-623 | The node's own report moves an open reset, stamps its end, and deactivates the node exactly on success; a terminal reset is left alone |
| NodeTasks.TaskService.TimeoutSweep | app/main.py:412-452 | The sweep computes the table that SweepsFailExactlyTheOverdue spells out: it keeps an error message already there and touches nothing that is on time |
| NodeTaskRuns.StepEvolves | app/api/node_updates.py:309-394 | Whatever step is taken, a row keeps its identity, never changes once terminal, never falls in rank, and an update row that changes moves strictly forward and is stamped |
| NodeTaskRuns.RankNeverFalls | app/api/node_updates.py:198-221 | In every run a task's rank never falls and a terminal row never changes again |
| NodeTaskRuns.UpdateRowsMoveOnlyForward | app/api/node_updates.py:379-390 | In every run an update task is either the very same row as before or has risen in rank |
| NodeTaskRuns.TablesStayConsistent | app/api/node_updates.py:80-95 | In every reachable state a node has at most one open task of each kind, finished_at is set exactly on terminal tasks, and a node is inactive if and only if one of its resets succeeded |
| NodeTaskRuns.NoTaskOutlivesTheCeiling | app/main.py:412-447 | With sweeps at most P apart, every task of either kind is terminal once 15 minutes and P have passed since its creation |
| NodeTaskRuns.NoInstallOutlivesItsProgressDeadline | app/main.py:427-447 | An update that entered in_progress is terminal 10 minutes and P later, however many heartbeats with the old version arrive |
| NodeTaskRuns.ADeadInstallIsFailedByTheSweep | app/main.py:427-447 | A run that begins an install which then dies, and whose only sweep fails it: the deadline speaks of real runs |
| NodeTaskRuns.RequestsAreFreedByTheDeadline | app/api/node_updates.py:135-141 | A request is answered "already queued" if and only if an update of the node is open, and so never once its tasks are older than the ceiling and P |
| NodeTaskRuns.BusyIsTheLastReport | app/admin.py:318-324 | A node counts as busy exactly if the last heartbeat that spoke of it said so |
| NodeTaskRuns.HandOutIsForAnIdleNode | app/api/node_updates.py:309-339 | A node is handed an update if and only if it is known, has one pending, and did not say it was busy when it last spoke of it; what it is handed is its own pending task and that task's version |
| NodeTaskRuns.OnlyDispatchActivates | app/api/node_updates.py:320-339 | An update becomes dispatched, in progress or successful, having been neither before, only by a dispatch that hands out this very task |
| NodeTaskRuns.HandedOutAtMostOnce | app/api/node_updates.py:320-339 | With handlers that do not overlap, no update task is handed to its node twice in any run |
| NodeTaskRuns.ActiveUpdatesWereHandedOut | app/api/node_updates.py:320-339 | An update that is dispatched, in progress or successful was handed out earlier in the run |
| NodeTaskRuns.SuccessMeansTheTargetVersionReported | app/api/node_updates.py:373-378 | An update succeeds only after it was handed out and a later heartbeat of its node reported exactly the target version |
| NodeTaskRuns.ConfirmationSettlesTheTask | app/api/node_updates.py:361-378 | Conversely such a heartbeat settles the task at once, from dispatched and from in_progress alike |
| NodeTaskEffects.OnlyTheRightRowChanges | app/api/node_updates.py:309-394 | An event changes a row only if it is meant for it: its own node, the right kind and a state in which it applies, and for the sweep only if the row is overdue |
| NodeTaskEffects.SweepsFailExactlyTheOverdue | app/main.py:412-452 | In any run a sweep fails exactly the open tasks created more than 15 minutes before it, or in progress without a change for more than 10 minutes; every other row is the very same afterwards |
| NodeTaskEffects.InstallsAreStampedWhenTheyBegin | app/api/node_updates.py:379-390 | The timestamp of an update in progress is the time of the event that moved it there |
| NodeTaskEffects.SweptInstallsHadTheirTime | app/main.py:427-435 | Within its first 15 minutes, an install is failed by a sweep if and only if it began more than 10 minutes before |
| NodeTaskEffects.CancelEndsExactlyAnOpenTask | app/api/node_updates.py:246-275 | A cancel fails an open task of the named node with "Cancelled by user" and changes no other row; otherwise the reply says not found, or which end the task has |
| NodeTaskEffects.ReportsEndExactlyAnOwnOpenUpdate | app/api/node_updates.py:175-221 | A failure report fails the node's own open update with its message, cut at 1000 characters, and changes no other row |
| NodeTaskEffects.RequestsAddExactlyOneUpdate | app/api/node_updates.py:122-168 | A request adds one pending update with the resolved version exactly if the node is known, none of its updates is open and there is a version; otherwise nothing changes and the reply says why |
| NodeTaskEffects.ResetsAddExactlyOneTask | app/admin.py:473-561 | A reset request adds one task, dispatched or pending as its message was published or not, exactly if the node is known and has no open reset |
| NodeTaskEffects.ResetReportsMoveExactlyTheNamedReset | app/admin.py:568-623 | A reset report moves the named open reset as its word says and nothing else, and deactivates the node exactly on success |
| NodeTaskEffects.HeartbeatsRefreshTheirNode | app/admin.py:318-324 | A heartbeat stores the version and the busy flag it brings in its own node's row and keeps what it does not bring |
| NodeTaskEffects.ReportedVersionsDecide | app/api/node_updates.py:342-394 | A reported version settles the newest handed-out update if it is the target; otherwise that update begins once 30 seconds have passed since it was dispatched, and nothing else changes |
| NodeTaskRaces.AloneEvolves | app/api/node_updates.py:194-216 | A handler that runs alone, the conditional report included, never changes a terminal row and never lowers its rank |
| NodeTaskRaces.WritesAreDecided | app/api/node_updates.py:195-197 | In any run of overlapping handlers every write under way was decided by an earlier read of the row, which was then still open |
| NodeTaskRaces.OnlyStaleWritesClobber | app/api/node_updates.py:195-197 | In any such run, what changes a row that has been terminal since event e is the landing of a write decided before e; never a report, and never a handler that started after the end |
| NodeTaskRaces.TheEndIsFinalExactlyWithoutStaleWrites | app/api/node_updates.py:195-197 | A terminal row stays as it is in every continuation if and only if no write already under way would change it |
| NodeTaskRaces.RaceFreeRunsKeepTheEnd | app/api/node_updates.py:267-273 | If every write lands on the row it was decided on, overlapping sessions keep what atomic handlers keep: no rank falls and every end is final |
| NodeTaskRaces.StaleHeartbeatReopensACancelledTask | app/api/node_updates.py:382-390 | The run in which a heartbeat read before a cancel lands after it and puts the cancelled task back in progress |
| NodeTaskRaces.DeliverableExactlyWhenUnderWay | app/api/node_updates.py:320-339 | A task that is no longer pending can still be handed out, in some continuation, if and only if a dispatch that read it pending is under way |
| NodeTaskRaces.HandedOutAgainExactlyWhenReadBefore | app/api/node_updates.py:320-339 | In any run of overlapping handlers a task just handed out can be handed out again if and only if another dispatch read it before that and has still to land |
| NodeTaskRaces.OverlappingHeartbeatsGetTheSameUpdate | app/api/node_updates.py:320-339 | The run in which two overlapping heartbeats are both given the same update |
| MemoryEndpoint.MemoryService.InjectMemories | app/api/memories.py:262-420 | Which batches are refused and why, that a refused or skipped batch changes nothing, that any other is reduced, upserted, embedded if there is a vector for each memory, and compared, with the counters that go with it; and that only rows of the household named in the body, or else of the node, ever change or are added |
| MemoryEndpoint.MemoryService.Inject | app/api/memories.py:325-420 | The three layers of an accepted batch and the counters they add up to |
| MemoryEndpoint.MemoryService.EmbedAndCompare | app/api/memories.py:377-411 | Vectors are stored and compared only if the service gave one for each saved memory; otherwise nothing changes |
| MemoryEndpoint.MemoryService.Embed | app/api/memories.py:385-388 | The loop stores each saved memory's vector and skips the empty ones |
| MemoryEndpoint.MemoryService.CompareOne | app/api/memories.py:393-407 | The most similar household-wide row is deactivated if there is one and it is not the memory itself |
| MemoryEndpoint.MemoryService.Compare | app/api/memories.py:393-411 | The loop over the saved memories deactivates and counts as specified |
| MemoryEndpoint.MemoryService.InBatchDedup | app/api/memories.py:325-330 | The dictionary loop computes the reduced batch |
| MemoryEndpoint.MemoryService.UpsertItems | app/api/memories.py:339-375 | The loop over the reduced batch computes the tally of rows, injected, updated and errors, failing items included |
| MemoryEndpoint.MemoryService.SaveMemory | app/services/memory_service.py:88-158 | A non-empty key overwrites the first active row of its household and user, dropping the embedding exactly when the text changes; otherwise a row is added |
| MemoryEffects.UpsertsOverwriteTheFirstKnownRow | app/services/memory_service.py:112-158 | An item with a key overwrites the first active row with that household, key and user, column by column, and keeps its embedding only if the text stays; any other item becomes a new row |
| MemoryEffects.OnlyTheLastItemOfAKeyAndUserStays | app/api/memories.py:325-330 | Of a batch exactly those items stay that no later item with the same key and user replaces |
| MemoryEffects.ErrorsNameTheFailedItems | app/api/memories.py:373-375 | The error texts are those of the items that failed, each with its key |
| MemoryEffects.InjectionsTouchOnlyTheirHousehold | app/api/memories.py:339-411 | Upserts, vectors and comparisons of a batch together change no row of another household, remove none, and add rows of their own household only |
| MemoryEffects.ComparisonsRetireAResemblingRow | app/services/memory_service.py:493-520 | What a comparison retires is one other active, unexpired household-wide row of the same household that is at least 0.9 similar; and a memory that does not resemble itself retires one whenever there is any |
| MemoryInjection.DedupKeepsTheLastOfEachPair | app/api/memories.py:325-330 | The reduced batch has each (key, user) pair of the batch exactly once, with the last item of the pair |
| MemoryInjection.DedupThenUpsertIsUpsertInOrder | app/api/memories.py:269-272 | Up to cached embeddings, upserting the reduced batch gives the same table as upserting every item in order, if and only if no pair with an empty key repeats |
| MemoryInjection.DedupKeepsEmbeddingsExactlyWithoutDetours | app/services/memory_service.py:119-140 | The tables agree in every column, embeddings included, if and only if in addition no embedded text is rewritten and then restored within the batch |
| MemoryInjection.DetourLosesTheEmbedding | app/services/memory_service.py:131-134 | A concrete batch for which the two tables differ in an embedding |
| MemoryInjection.RepeatedEmptyKeysLoseARow | app/services/memory_service.py:117-118 | For any two items with the same user and an empty key, upserting in order gives two rows and the reduced batch only one |
| MemoryDuplicates.UpsertsLeaveWhatTheyWrote | app/api/memories.py:339-375 | In the table that upserting distinct pairs leaves, each saved row is as its item wrote it, and no two items wrote the same row |
| MemoryDuplicates.EveryMemoryGetsItsVector | app/api/memories.py:385-388 | In the table that any batch leaves, each saved memory gets its own vector, unless that is empty; no other column and no other row changes |
| MemoryDuplicates.DeactivationsAreCounted | app/api/memories.py:393-411 | The count added to "deduplicated" is exactly the number of memories active before the comparison and not after it |
| MemoryDuplicates.ComparisonsRetireTheBestToBeat | app/api/memories.py:396-407 | A comparison retires a row if and only if some other comparable row comes before the memory in similarity (or the memory cannot be compared itself), and then exactly the first of the most similar ones |
| MemoryDuplicates.RowsAreRetiredExactlyWhenBestToBeat | app/services/memory_service.py:472-520 | Exactly which rows a batch retires: those that were the best to beat one of its memories when that was compared; every other row stays as it is |
| MemoryDuplicates.BatchesRetireNothingExactlyWhenNoneIsBeaten | app/api/memories.py:393-411 | A batch retires nothing if and only if none of its memories is beaten in the table before the comparisons |
| MemoryDuplicates.NearDuplicatesOfHouseholdMemoriesStay | app/api/memories.py:390-407 | For household-wide memories that carry their vectors the comparisons retire something if and only if one of them has an active, unexpired, household-wide exact duplicate before it |
| MemoryDuplicates.HouseholdBatchesRetireOnlyForEarlierTwins | app/api/memories.py:325-411 | The same for every batch the endpoint takes for the whole household, from any table, with the upserts, failures and vectors in between |
| MemoryDuplicates.ANearDuplicateStays | app/api/memories.py:390-407 | A table with an old memory that is comparable to a new one and stays |
| MemoryDuplicates.OnlyAnEarlierTwinIsRetired | app/api/memories.py:396-407 | Of two exact duplicates the earlier is retired when the later is new, and neither when the earlier is |
| MemoryDuplicates.AUserMemoryRetiresAHouseholdOne | app/api/memories.py:396-404 | In any table, comparing a user's own new memory retires a household-wide one if and only if there is one that it resembles |
| MemoryInjection.TalliesAreExact | app/api/memories.py:332-375 | For distinct pairs, injected, updated and errors add up to the items, and updated is the number of pairs that did not fail and were active before the batch |
| MemoryInjection.CountsAreExact | app/api/memories.py:330-375 | Injected, updated, failed and in-batch duplicates add up to the batch; without failures updated and injected are exactly the numbers of distinct pairs known and unknown before |
| Slugs.SlugIsTheJoinedWords | app/api/routines.py:105-107 | A slug is the alphanumeric runs of the lower-cased name joined by single underscores, or "routine" if there is none |
| Slugs.SlugsAreCanonical | app/api/routines.py:105-107 | Every slug is non-empty, with single underscores only between alphanumeric runs |
| Slugs.SlugifyFixesExactlyTheCanonical | app/api/routines.py:105-107 | A text is its own slug if and only if it is canonical; slugifying is idempotent |
| SlugContents.SlugsSpellTheName | app/api/routines.py:105-107 | Without its underscores a slug is the letters and digits of the name in order, capitals made small; a name without any gives "routine" |
| SlugContents.TheSecondIsNumberedTwo | app/api/routines.py:118-121 | If the bare slug is taken, the slug ends in "_2" if and only if that one is free |
| Strings.TrimStripsExactly | app/api/routines.py:106 | Stripping takes only dropped characters off the two ends, stops at the first that is kept, and leaves nothing exactly of a text that has only such characters |
| Slugs.SuffixedIsCanonicalAndInjective | app/api/routines.py:118-121 | A numbered slug is canonical, differs from its base, and determines its number |
| Slugs.UniqueSlug | app/api/routines.py:110-121 | The search ends within the number of existing slugs plus one, with the bare slug if free and else the least free number |
| Slugs.UniqueSlugIsDetermined | app/api/routines.py:110-121 | Those conditions leave exactly one slug |
| Slugs.PigeonHole | app/api/routines.py:118-121 | n - 1 taken slugs need at least n - 1 existing ones, which bounds the search |
| Routines.FlattenArgs | app/api/routines.py:124-145 | The loop over argument pairs computes the flat map |
| Routines.LastPairWins | app/api/routines.py:132-144 | Of several pairs with one non-empty key the last decides the value, parsed if it is bracketed and well-formed |
| Routines.FlatKeysComeFromPairs | app/api/routines.py:132-144 | The flat map has no empty key and no key that no pair carries |
| Routines.RoutineTable.CreateRoutine | app/api/routines.py:266-293 | A valid body adds one row under the unique slug of its household; an invalid one changes nothing |
| Routines.RoutineTable.Find | app/api/routines.py:296-304 | Finds the row of the household with the id, or there is none |
| Routines.RoutineTable.UpdateRoutine | app/api/routines.py:319-349 | Not found, unprocessable with nothing changed, or the given fields set in that one row |
| Routines.RoutineTable.Apply | app/api/routines.py:329-346 | Field by field: absent fields and the slug stay, and one refused field refuses the whole patch |
| Routines.RoutineTable.DeleteRoutine | app/api/routines.py:353-363 | Removes exactly the named row, or there is none |
| Routines.RoutineTable.NodePullRoutines | app/api/routines.py:370-390 | The loop over enabled rows computes the map that NodesPullWhatTheRowsSay spells out; a node without a household gets none |
| Routines.StepKeepsConsistency | app/api/routines.py:266-363 | Every call keeps slugs distinct per household, ids distinct and slugs canonical, and never moves a slug |
| Routines.SlugsStayDistinct | app/api/routines.py:277-289 | In every run (household, slug) stays distinct and every slug canonical |
| Routines.SlugsSurviveRenames | app/api/routines.py:319-349 | In every run a routine keeps its household and slug as long as it exists, renamed or not, and no old id comes back |
| Routines.NodesPullEveryEnabledRoutine | app/api/routines.py:385-390 | In every run the pulled map has exactly one entry per enabled routine of the household, and each is that routine's own |
| RoutineContents.NodesPullWhatTheRowsSay | app/api/routines.py:165-181 | In every run a node pulls exactly the slugs of its household's enabled routines; each entry has the row's phrases, instruction and length ("short" if empty) and, step by step, the row's command, label and, for each argument key, the value of the last pair with that key |
| RoutineContents.CreationsAddTheRoutine | app/api/routines.py:266-293 | A creation adds one row with the trimmed name, a slug free in the household and every field of the body, exactly if the name is not blank, the length is short, medium or long and the schedule can be followed; otherwise nothing changes |
| RoutineContents.NewSlugsAreTheFirstFree | app/api/routines.py:110-121 | A new routine gets the slug of its name if no routine of its own household has it, and else the first such one numbered from 2 up |
| RoutineContents.EditsAssignTheGivenFields | app/api/routines.py:319-349 | An edit assigns exactly the fields it gives, in the one row it names, unless a given length or schedule is not allowed |
| RoutineContents.DeletionsRemoveTheNamedRow | app/api/routines.py:353-363 | A deletion takes out exactly the row of that household and id |
| RoutineContents.RoutinesStayPlayable | app/api/routines.py:198-212 | In every run each routine has one of the three lengths, and its schedule, if any, is a non-blank cron line or a positive interval |
| RoutineContents.OthersNeverMoveARoutine | app/api/routines.py:266-390 | Over any stretch of a run in which only other households call, a household's routines and what its node pulls stay as they are |
| Base64Url.UnpaddedShape | app/api/oauth.py:145-150 | Unpadded, n bytes take ceil(4n/3) characters of the base64url alphabet |
| Base64Url.LettersAreTheUrlSafeAlphabet | app/api/oauth.py:128 | The letters are A-Z, a-z, 0-9, "-" and "_", in this order |
| Base64Url.LettersAreTheBits | app/api/oauth.py:122-128 | Every four letters are the same 24-bit number as the three bytes they stand for |
| Base64Url.LastLettersAreTheBits | app/api/oauth.py:122-128 | One or two last bytes give two or three letters that are their bits filled up with zeros |
| Base64Url.TailsAreEncodedAlone | app/api/oauth.py:122-128 | What follows k whole groups is encoded as if it stood alone, 4k letters on |
| Base64Url.PaddingFillsTheLastGroup | app/api/oauth.py:122-128 | A padded text comes in groups of four, and "=" stands exactly behind its letters |
| Base64Url.DecodeUndoesEncode | app/api/oauth.py:122-137 | Decoding undoes padded base64url for every byte string (RFC 4648 section 5) |
| Base64Url.StrippedPaddingIsRestorable | app/api/oauth.py:158-164 | Stripping "=" removes the padding and nothing else, and completing it again decodes to the bytes |
| Base64Url.EncodingIsInjective | app/api/oauth.py:122-137 | Different byte strings have different encodings |
| OAuthSecrets.DecryptUndoesEncrypt | app/api/oauth.py:122-137 | For every text and 12-byte nonce, decryption gives the text back, given a lawful cipher |
| OAuthSecrets.StoredValuesLeadWithTheNonce | app/api/oauth.py:122-128 | A stored value decodes to the 12 bytes of the nonce followed by the text sealed under key and nonce |
| OAuthSecrets.StoredValueDeterminesItsParts | app/api/oauth.py:122-137 | A stored value determines its nonce and its ciphertext |
| OAuthSecrets.VerifierMeetsTheStandard | app/api/oauth.py:145-148 | The PKCE verifier has 86 unreserved characters, so it is within 43..128 and the cut at 128 never removes entropy (RFC 7636 section 4.1) |
| OAuthSecrets.ChallengeMeetsTheStandard | app/api/oauth.py:149-150 | The challenge is 43 unpadded characters from which the digest of the verifier can be read (RFC 7636 section 4.2) |
| OAuthSecrets.RelayStateIsReadable | app/api/oauth.py:158-164 | The relay reads back the very JSON text that was encoded, with any token and URI |
| MobileChat.ChatStream | app/api/mobile_chat.py:276-507 | The generator emits the log of the specification: opening, turns, ending, whichever service raises |
| MobileChat.ToolLoop | app/api/mobile_chat.py:312-495 | The bounded loop computes the entries of its turns |
| MobileChat.HandleReply | app/api/mobile_chat.py:334-485 | One reply is handled branch by branch as specified |
| MobileChat.ToolPassOf | app/api/mobile_chat.py:413-444 | The loop over tool calls collects one result per call and tracks the pending actions, up to the first that raises |
| MobileChat.EveryStreamEndsOnce | app/api/mobile_chat.py:292-507 | Every stream emits exactly one terminal event, as its last event, and closes its trace exactly once, right after it |
| MobileChat.ContinuationsAnswerTheCalls | app/api/mobile_chat.py:333-456 | At most five continuations, the n-th with exactly one result per tool call of the n-th reply, in order |
| MobileChat.DoneExactlyWhenAReplySettles | app/api/mobile_chat.py:333-495 | A stream ends with done if and only if one of the first five replies settles it and every earlier one asked for tools that all came back |
| MobileChat.ChunksSpellTheText | app/api/mobile_chat.py:345-349 | Cutting a text into words with their spaces loses nothing |
| MobileChatAnswers.StreamsSayWhatTheyEndWith | app/api/mobile_chat.py:333-485 | A stream that reply m settles says, as text, the remarks of the earlier replies in order and then the full text of an answer; its done event repeats that text with the actions pending then and the latest reasoning |
| MobileChatAnswers.AnswersCarryTheLastActions | app/api/mobile_chat.py:423-444 | Those actions are the ones of the last tool output over all passes that brought any, with its command, and there are none if and only if no output brought any |
| MobileChatWording.ToolDataIsNotShown | app/api/mobile_chat.py:341-344 | A message with "[Tool data:" and an end of it is shown from behind the first such end, trimmed; any other is shown as it is |
| MobileChatWording.ChunksEndAtTheSpaces | app/api/mobile_chat.py:345-349 | The text is streamed in pieces cut behind each of its spaces and nowhere else |
| MobileChatWording.StreamsOpenWithAnAcknowledgment | app/api/mobile_chat.py:296-310 | A cold conversation first says that it starts, and every stream acknowledges the message before anything else, unless the warm-up fails, which is all it then says |
| MobileChatWording.ContinuationsAreAnnounced | app/api/mobile_chat.py:408-411 | Every continuation stands right behind the word that a command runs |
| MobileChatWording.StreamsEndAsTheReplySays | app/api/mobile_chat.py:333-485 | For each stop reason, what a settled stream says after the remarks and how its done event reads, with the latest reasoning exactly if it is asked for |
| MobileChatWording.StreamsSayWhyTheyFail | app/api/mobile_chat.py:400-505 | A stream that goes wrong at a reply says so in the words of what went wrong: the service's, the first failing tool's, the reply's own, or too many iterations |
| MobileChatWording.TranscriptsAreLoggedExactlyForAnswers | app/api/mobile_chat.py:369-383 | The transcript is logged if and only if an answer settles the stream |
| HlsPackager.PackagersStayOrderly | app/api/hls_packager.py:153-226 | In every interleaving every packager keeps its launch order and flags, and all but the registered one are being torn down |
| HlsPackager.AtMostOneLiveProcess | app/api/hls_packager.py:153-168 | No packager ever has two live ffmpeg processes, and at most one launch happens after its stop flag is set |
| HlsPackager.RespawnFollowsExit | app/api/hls_packager.py:159-168 | A launch happens only when every earlier process of the packager has exited |
| HlsProgress.PollsReplaceExactlyTheDead | app/api/hls_packager.py:159-168 | A poll goes on to replace the process exactly if it has exited |
| HlsProgress.DeadProcessesAreReplaced | app/api/hls_packager.py:159-168 | In any run, once the manager polls a process that has exited and was not told to stop, its next four steps are possible and store one new live process |
| HlsProgress.AStartedStreamRuns | app/api/hls_packager.py:153-195 | A run from nothing to a registered packager with a live, stored process |
| HlsProgress.ReplacementsWaitForTheTeardown | app/api/hls_packager.py:171-195 | In any run a start() that replaces a packager registers the new one only once the old one is stopped and torn down |
| HlsProgress.StoppedManagersEnd | app/api/hls_packager.py:153-168 | In any run a manager takes at most three steps after its stop flag is set, and until it is through it can take the next |
| HlsPackager.AtMostOnePackagerInCharge | app/api/hls_packager.py:171-209 | However start and stop are called, at most one packager of a stream is not being torn down, and it is the registered one |
| HlsPackager.TeardownOrphansExactlyMidLaunch | app/api/hls_packager.py:212-226 | In any run, a teardown about to read the process can end, by some continuation of the whole registry, with an ffmpeg of its packager still running if and only if the manager is mid-launch at that moment |
| HlsPackager.MidLaunchIsReached | app/api/hls_packager.py:153-157 | A run from nothing in which stop() gets between the manager's decision to launch and the launch |
| HlsPackager.AnOrphanIsReached | app/api/hls_packager.py:203-226 | A run from nothing and its continuation to an ffmpeg that nobody will stop |
| HlsPackager.DeadPackagersAreReusedExactlyIfNeverLaunched | app/api/hls_packager.py:171-180 | A registered packager whose manager died has nothing running; the next start() reuses it if and only if it never launched, and replaces it otherwise |
| HlsPackager.StuckExactlyUntilStop | app/api/hls_packager.py:171-180 | A dead packager that never launched stays the registered one, whatever is called, exactly until stop() |
| HlsPackager.StuckIsReached | app/api/hls_packager.py:153-157 | A run from nothing to such a packager: the first launch fails |
| HlsPackager.ContainedInTheWorld | app/api/hls_packager.py:212-226 | Once a teardown has read the process outside a launch, nothing that happens in the registry lets a process survive it |
| ExpiringRequests.Request.Verify | app/api/package_install.py:152-186 | Confirms exactly the pending requests that are on time, and expires a late one whatever its status |
| ExpiringRequests.Request.UploadResults | app/api/package_install.py:190-239 | A late upload expires the request; otherwise it is restarting with two more minutes, completed, or failed with a message |
| ExpiringRequests.Request.ExpireOnPoll | app/api/package_install.py:262-272 | A poll expires only an open request that is late |
| ExpiringRequests.Request.PollInstall | app/api/package_install.py:246-306 | The answer of the install poll: its status, the message of a failed or expired one, the details of a completed one only |
| ExpiringRequests.Request.PollRemoval | app/api/package_install.py:421-452 | The answer of the uninstall poll, which hands back what the row holds; the revert poll is the same |
| ExpiringRequests.Request.PollBluetooth | app/api/bluetooth.py:203-255 | The answer of the Bluetooth polls, with 410 exactly for an expired request |
| ExpiringRequests.DeadlineCountsRestarts | app/api/package_install.py:73-89 | In every run the deadline is creation plus the time to live plus two minutes per accepted restarting upload |
| ExpiringRequests.ExpiryIsAbsorbing | app/api/package_install.py:171-176 | No later call of any kind changes an expired request |
| ExpiringRequests.ExactlyLateCallsExpire | app/api/package_install.py:165-209 | A call leaves the request expired if and only if it is late, and not a poll of a completed or failed one |
| ExpiringRequests.TheLastUploadOfEachKindDecides | app/api/package_install.py:204-239 | In any run the row has the details of the last accepted upload that left any, the error of the last accepted failure, the time of the last accepted outcome and, unless expired, the status of the last accepted upload |
| ExpiringRequests.OutcomesLastExactlyUnderRepeats | app/api/package_install.py:165-270 | In any run a completed request stays completed, and a failed one failed, from one point to another if and only if every call in between is a poll, an on-time verify, or an on-time upload of the same outcome without a restart |
| ExpiringRequests.CompletionIsNotFinal | app/api/package_install.py:206-219 | Concrete runs in which a completed install becomes expired, and becomes restarting |
| ExpiringRequests.PollsFindOpenOnlyUnexpired | app/api/package_install.py:264-281 | A poll finds a request open if and only if it was open and its extended deadline has not passed |
| ExpiringRequests.PendingMeansUntouched | app/api/package_install.py:165-239 | A request is pending exactly while no upload was accepted and no call came late, and is then as it was created |
| ExpiringRequests.ConfirmationPrecedesResults | app/api/package_install.py:165-186 | A confirmation is given only ahead of the first accepted result and within the first five minutes |
| ExpiringRequests.BluetoothNeverExtends | app/api/bluetooth.py:175-228 | A Bluetooth request never restarts, keeps its deadline, and is never found open after two minutes |
| NodeAuthCache.Verifier.GetCachedValidation | app/deps.py:114-121 | Answers the entry of the header while it is younger than the time to live, and evicts it otherwise |
| NodeAuthCache.Verifier.VerifyApiKey | app/deps.py:162-217 | The verdict and the cache after one check, which LegacyHeadersAreLookedUp and VerdictsFollowFromAReply spell out for headers without and with a colon |
| NodeAuthCache.EntriesComeFromTheService | app/deps.py:124-126 | Every entry is a reply of the service to an earlier call with that very header |
| NodeAuthCache.AcceptanceRestsOnAFreshReply | app/deps.py:162-217 | Every acceptance of a "node:key" header rests on a valid reply for that header, given now or less than the time to live ago |
| NodeAuthCache.TheNodeEndsAtTheFirstColon | app/deps.py:187-188 | A header names its node before its first colon, and without a colon it names none |
| NodeAuthCache.LegacyHeadersAreLookedUp | app/deps.py:211-217 | In any run a header without a colon is accepted, as the node of that key, if and only if it is a legacy key, and otherwise rejected |
| NodeAuthCache.VerdictsFollowFromAReply | app/deps.py:162-209 | In any run the verdict on a header with a colon follows from one reply of the service for that header, given now or less than the time to live ago |
| NodeAuthCache.AcceptedNodesAreKnown | app/deps.py:171-206 | In any run whoever is accepted with such a header is a node known locally at that moment |
| NodeAuthCache.CacheIsInvisible | app/deps.py:162-217 | If the service replies steadily and echoes node ids, every call gets the verdict of the check without a cache |
| NodeAuthCache.TheServiceIsSpared | app/deps.py:114-126 | The service is asked about a header again only after the time to live, or if its cached node is unknown locally |
| SchemaCache.Cache.GetSchema | app/api/mobile_command_data.py:76-87 | Answers what is stored and not too old, and evicts what is |
| SchemaCache.Cache.PutSchema | app/api/mobile_command_data.py:89-91 | Stores the value with its time, over any older one |
| SchemaCache.Cache.InvalidateSchema | app/api/mobile_command_data.py:93-95 | Forgets that pair only |
| SchemaCache.Cache.ClearAll | app/api/mobile_command_data.py:97-99 | Forgets everything |
| SchemaCache.CacheRefinesTheLog | app/api/mobile_command_data.py:76-99 | After any history a lookup answers the last put of the pair not since invalidated, cleared or grown too old |
| Callbacks.CallbackJob.constructor | app/api/callbacks.py:144-169 | A job is created pending, with its deadline |
| Callbacks.CallbackJob.GetPayload | app/api/callbacks.py:362-401 | Only the named node reads the payload; a late pending job expires, an expired one is gone |
| Callbacks.CallbackJob.PostResult | app/api/callbacks.py:408-439 | Only the named node records a result, whatever the job's status is |
| Callbacks.CallbackJob.RecordResult | app/api/callbacks.py:442-470 | Status, error, completion time and the result block are overwritten; a block JSON cannot hold is dropped |
| Callbacks.CallbackJob.GetStatus | app/api/callbacks.py:522-543 | A status poll expires a late pending job and changes nothing else |
| Callbacks.CallbackJob.RunServerCallback | app/api/callbacks.py:289-355 | However the handler goes wrong, the job ends completed or failed, and completed exactly if the handler succeeded; a task cancelled under it leaves the job as it was |
| Callbacks.TheLastResultDecides | app/api/callbacks.py:442-458 | In every run the last delivered result decides status, error and completion time; without one the job is expired if somebody looked too late, and else pending |
| Callbacks.EventsHaveTheirEffect | app/api/callbacks.py:289-543 | What each event of a run does to the job: a look by whoever may look expires it if late, a result of the named node or of the server's own task is recorded, with the text of each way a handler fails, and everything else leaves it alone |
| Callbacks.TheLastBlockStays | app/api/callbacks.py:459-467 | In every run the result block is that of the last result that brought one, which need not be the result that decides the status |
| Callbacks.LateResultsOverwriteExpiry | app/api/callbacks.py:456-458 | A run in which a result completes a job that had expired |
| Callbacks.FailuresKeepAnEarlierBlock | app/api/callbacks.py:456-467 | A run that ends with the error of one result and the block of an earlier one |
| Callbacks.PendingIsNeverReentered | app/api/callbacks.py:362-543 | A job never returns to pending, and has a completion time exactly if it is completed or failed |
| Callbacks.NodesCannotTouchServerJobs | app/api/callbacks.py:373-423 | Whatever nodes do, a job without a node stays exactly as it was created |
| Callbacks.ServerJobsFinishExactlyByTheirTask | app/api/callbacks.py:289-355 | A job of the server plane is completed or failed if and only if its background task ran to its end; only a cancelled task leaves it open |
| Provisioning.Provisioner.CreateProvisioningToken | app/provisioning.py:155-199 | A refresh is refused for a registered node and otherwise replaces the node's open tokens; without an id a new node id is drawn |
| Provisioning.Provisioner.RegisterNode | app/provisioning.py:203-248 | A valid token registers its node in its household and is consumed; nothing changes in any other case |
| Provisioning.Provisioner.AdminCreateNode | app/admin.py:346-391 | An administrator creates an unknown node in a household without any token, if the auth service accepts it |
| Provisioning.Provisioner.AdminDeleteNode | app/admin.py:394-442 | A permitted deletion removes exactly this node and leaves the tokens alone |
| Provisioning.Provisioner.CleanupExpiredTokens | app/provisioning.py:256-272 | Deletes exactly the rows that expired or were consumed more than a day ago, and counts them |
| Provisioning.CleanupIsInvisible | app/provisioning.py:132-146 | Cleaning up never changes the outcome of any validation, now or later |
| Provisioning.AdmissionNeedsExactlyAGoodRow | app/provisioning.py:132-146 | A node is admitted if and only if some row has its id and the hash, is unconsumed and has not reached its deadline |
| Provisioning.IssuingReplacesExactlyTheOpenRows | app/provisioning.py:155-199 | Issuing adds one row with a deadline ten minutes on and deletes exactly the unconsumed rows of a node that is named; for a registered node nothing changes |
| Provisioning.RegistrationsSpendTheirToken | app/provisioning.py:203-248 | A registration goes through exactly if the token admits the node, the node is new and the auth service agrees; it then adds the node and consumes exactly the row of that hash |
| Provisioning.CleanupDeletesExactlyTheOld | app/provisioning.py:256-272 | Cleaning up deletes exactly the rows that expired, or were consumed, more than a day ago |
| Provisioning.TokensAreGoodExactlyUntilUsedReplacedOrOld | app/provisioning.py:132-190 | In every run an issued token admits its node, into its household, exactly until ten minutes are over, it is used, or a newer token for the node replaces it |
| Provisioning.AtMostOneOpenToken | app/provisioning.py:161-190 | In every run each node id has at most one unconsumed token, and no hash stands twice in the table |
| Provisioning.NodesRestOnTokensOrAdministrators | app/provisioning.py:203-248 | In every run the event that last created a present node was an administrator's for this household, or a registration with a token issued for this very node id and household less than ten minutes earlier; and it has stayed there since |
| Provisioning.NodesStayExactlyUntilDeleted | app/admin.py:394-442 | A present node stays, and stays in its household, from one point of a run to another if and only if no permitted deletion of it lies in between |
| Provisioning.DeletedNodesCanMove | app/admin.py:439-440 | A run in which a deleted node comes back in another household |
| Provisioning.ConsumedTokensNeverValidate | app/provisioning.py:208-237 | In every run a token that was consumed never validates again, for any node at any time |

## Left out

- RateLimiter.WindowBound: real arithmetic in place of floating point, a wall clock that never runs backwards, and calls that do not overlap, although the dictionary is read and written without a lock (OverlappingCallsShareAToken says what an overlap costs).
- NodeTaskRuns.HandedOutAtMostOnce: a dispatch is one step here; for dispatches that overlap see HandedOutAgainExactlyWhenReadBefore.
- NodeTasks.TaskService.HandleCreateReset: one atomic step, although the source publishes before its second commit; two requests that both find no open task before either inserts one are not modelled (overlapping writes to one existing row are, in NodeTaskRaces).
- NodeTaskRaces.TheEndIsFinalExactlyWithoutStaleWrites: one row; the columns of a write are computed when the row is read, with the clock of that moment.
- NodeTasks.TaskService.HandleRequestUpdate: the release lookup is a parameter, and the household role check is left out.
- NodeTasks.TaskService.HandleReportReset: the one-time reset token is a boolean.
- NodeTaskRuns.TablesStayConsistent: deleting a node deletes its tasks with it and so ends their story; it is not a step of a run, and a node created again under the same id counts as another node. A task's id is its position, so ordering by created_at is ordering by creation.
- MemoryEndpoint.MemoryService.InjectMemories: settings are two booleans, the clock is read once per batch, a failing save leaves the table as it was, and the vectors come from a parameter; a database error in the middle of the embedding layer is not modelled.
- MemoryDuplicates.NearDuplicatesOfHouseholdMemoriesStay: similarity is a real-valued function with the law of cosines of a vector with itself, and rounding is left out; the query leaves the order of equally similar rows open, which the model settles by the order of the table, so "before" means before in that order.
- Routines.FlattenArgs: which texts are well-formed JSON is a parameter, and values are strings as the request schema demands.
- Routines.RoutineTable.CreateRoutine: resolving a schedule's target node and the publish to nodes are left out.
- Base64Url.DecodeUndoesEncode: the decoder rejects foreign characters, which the library decoder skips; encoded text has none.
- OAuthSecrets.DecryptUndoesEncrypt: AES-GCM, SHA-256, UTF-8 and JSON are abstract; key derivation and the session handlers are left out.
- MobileChat.ChatStream: only the awaited services may raise; timing spans, trace summaries, sleeps and a listener that disconnects are left out.
- HlsPackager.PackagersStayOrderly: one stream, the watchdog mode only; a launch that raises ends the manager; pre-warm polling, ffmpeg arguments and directories are left out, and terminating a process is one step.
- ExpiringRequests.Request.PollBluetooth: the parsing of stored device lists is left out, and the status "restarting" is excluded because no Bluetooth request has it (BluetoothNeverExtends).
- ExpiringRequests.Request.UploadResults: lookups, ownership checks and the attention hand-off around the row are left out.
- NodeAuthCache.Verifier.VerifyApiKey: the last-seen stamp and the development bypasses are left out; the service's reply is an input of each call.
- Callbacks.ServerJobsFinishExactlyByTheirTask: a process that stops before or during the task is not an event of a run.
- Callbacks.CallbackJob.PostResult: the fan-out to the inbox and membership checks are left out.
- Provisioning.AtMostOneOpenToken: drawn node ids are assumed new, and a drawn secret's hash differs from those in the table (the column is unique); rooms and names are left out.
- Provisioning.ConsumedTokensNeverValidate: assumes in addition that the consumed secret is never drawn a second time after its row was deleted.
- HTTP, MQTT, database sessions, JWT and household-role checks, settings: external calls, abstracted to inputs.
- Attention broker, adapters, errands and workflows, schedules, phone sessions and contacts, cameras, prompt-provider installs, evaluation and command-line tools: not modelled; I/O plumbing or short members beside the protocols above.
