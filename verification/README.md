# Task service: a verified model

This project models the task service of a to-do application and proves what its tables, queues and caches keep over
whole runs. Each part is a small state machine on plain values (`State`, `Step`, `Run`); where the program works by
changing things in place, a class with the same fields is proved, method by method, to do exactly those steps.
`dafny verify dfyconfig.toml` checks everything.

| part | files |
|---|---|
| tasks table and transactional outbox | TaskDomain, TaskOutbox, TaskHistory, TaskFields, TaskClock, TaskStore |
| statement building, meaning of the filters | Statements, ListFilters, FilterMeaning |
| outbox worker, and what consumers get | OutboxWorker, OutboxBacklog, OutboxExtremes, OutboxProcessor, OutboxDelivery, OutboxOrder, OutboxWitnesses |
| list keys, Redis cache and its index sets | CacheKeys, RedisCache, CacheIndexes, CacheLifetimes, CacheRepository |
| shared tasks | SharedTasks, SharedTaskHistory, SharedTaskService, GroupedLoading |
| admin deletion, acknowledgement, restore | AdminFlags, AdminLives |
| batch processor | BatchQueue, BatchProcessor, FlushEffects |
| subtask completion, reminders | SubtaskCompletion, Reminders |
| general lemmas | Sequences, Sorting, Sets, Text |

A step is one SQL statement, one Redis pipeline or one service call, except where interleaving is the point: update
transactions take three steps (row, event, commit), an outbox tick one step for each event, a subtask toggle three, and
a background cache job four. Failures, crashes, clocks, generated ids and the database's freedom in ordering are
parameters of the steps, and the theorems hold for all their values.

## What the proofs found

- Consumers are never told of a deletion. `Delete` and `DeleteBatch` build the payload inside the statement from TIMESTAMP
  columns, which to_json prints without a zone (app/internal/tasks/repository/postgres/postgres.go:638-639, 691-692,
  app/migrations/0003_create_tasks_table.up.sql:8-9), and the worker unmarshals it into a time.Time, which demands one
  (app/internal/tasks/repository/outbox/model.go:30, 34, app/internal/worker/worker.go:88-92). Once everything else has
  been published, consumers hold every task ever created (`OutboxDelivery.ConsumersKeepDeletedTasks`).
- The deletions also stay in the outbox, where they are fetched again at every tick. Behind 1000 of them nothing with a
  later stamp is ever published (`OutboxDelivery.DeletionsStarve`, `OutboxWitnesses.DeletionsStopOutbox`); fewer only slow
  the others down (`OutboxOrder.FewDeletionsLetBacklogClear`).
- A single failed send can leave consumers with an old version of a task for good, because the retry comes after later
  updates (`OutboxWitnesses.OldVersionStays`).
- A deletion can be stamped before an update that was committed before it, because it reads the clock before it waits for
  the row (`TaskClock.DeletionStampedEarly`).
- The attempts counter stays within five in all runs exactly with one worker; n workers side by side can take it to
  4 + n, up to the column's limit of 100, and no further (`OutboxExtremes.FiveExactlyForOne`,
  `OutboxExtremes.AttemptsReached`).
- The worker fetches every unprocessed event. Exhausted events keep their place, so 1000 events that always fail block
  the outbox (`OutboxBacklog.PoisonBlocks`).
- A semicolon in a filter value makes different list requests share a cache key, also with the sort that every list
  route adds (`CacheKeys.SemicolonMoves`, `CacheKeys.SemicolonClashes`). A filter named `sort` can do so too, but only
  for a request that shows no sort, which no list route sends (`CacheKeys.SameKeyExactly`).
- A between filter whose bounds are RFC 3339 times, a format that parseValue reads, is silently ignored, because the value
  is split at every colon (app/internal/tasks/repository/postgres/postgres.go:922-928, `FilterMeaning.EffectiveExactly`).
- Deleting the only open subtask among several leaves a task with all subtasks done that nothing completes
  (`SubtaskCompletion.DeletionBreaksExactly`).
- The batch channels keep accepting after the worker has stopped; those items are never flushed. Exactly the items
  accepted before the stop are, also those accepted during the drain (`BatchQueue.FlushedExactlyUntilStop`). It takes a
  caller that outlives the worker.
- Created tasks without a tag name stand or fall together: one with a bad priority or a used id keeps all others of its
  flush, up to 499 accepted ones, out of the table, and the error is only logged (`FlushEffects.FlushBecomesRows`). The HTTP
  handler draws fresh ids and passes priorities through NewPriory, so this too takes another caller.
- The status texts "1" and "3" are storage codes to one reader and unknown to the other. A task created with status "3",
  or with "1" while not overdue, is stored and published with different statuses
  (`TaskHistory.CreatedStatusAgreesExactly`). The HTTP handlers pass every status through NewStatus first
  (app/internal/tasks/handlers/handler.go:105, 155), so only a direct caller of the repository can do this.
- A due date at Go's zero time never makes a task overdue, yet counts as a passed deadline when an admin restores it:
  `Overdue` in TaskDomain and `RestoreInTime` in AdminFlags differ there as the code does.
- The repository interface's comment says that acknowledging an admin deletion removes the task
  (app/internal/tasks/port/task_repository.go:32); the code only hides it, and so does the model.

## Model

| member | source | states |
|---|---|---|
| TaskOutbox.VersionsHaveNoGaps | app/internal/tasks/repository/postgres/postgres.go:38-159 | after any interleaving of update transactions and single statements, the log of each task is one `created`, then `update` versions 0, 1, 2, … without gap or repeat, then `deleted` exactly if the row is gone |
| TaskOutbox.UpdatesNeverCollide | app/internal/tasks/repository/postgres/postgres.go:561-608 | because the row update locks the row first, the version an update transaction computes never meets the unique constraint, in any reachable state |
| TaskOutbox.ReplayRebuildsTasks | app/internal/tasks/repository/postgres/postgres.go:494-707 | a reader that takes every event of the outbox, in commit order, ends with exactly the live task ids, each with its stored title, description, priority, due date and owner; if tasks are created with domain statuses, also the status every later reader sees |
| TaskOutbox.StepKeepsInv | app/internal/tasks/repository/postgres/postgres.go:38-707 | every statement and every step of an update transaction keeps: well-told stories, sound open transactions, replay agrees with the table |
| TaskOutbox.NextVersionCounts | app/internal/tasks/repository/postgres/postgres.go:594-604 | MAX(version) + 1 with default 0 is the number of `update` events so far, whenever the task’s story is well told |
| TaskHistory.Serializable | app/internal/tasks/repository/postgres/postgres.go:494-610 | every interleaving leaves tables and log as its own serial counterpart does: the statements that took effect, and each committed update run whole at its commit, with that transaction’s task, patch and clock readings |
| TaskHistory.TransactionsAsRequested | app/internal/tasks/repository/postgres/postgres.go:499-572 | an open transaction carries the task and the patch it was begun with, and the times its event was written with |
| TaskHistory.DeletedForGood | app/internal/tasks/repository/postgres/postgres.go:612-656 | once a deletion is in the log, in no continuation of any run is the task live again or is anything more logged about it: the unique constraint refuses a second `created` |
| TaskHistory.DeletionsNeverDecode | app/internal/tasks/repository/postgres/postgres.go:626-646 | in every run the worker can decode the payloads of creations and updates and no deletion’s: the statement prints its times without a zone |
| TaskHistory.RunLogGrows | app/internal/tasks/repository/postgres/postgres.go:38-707 | the log is only ever appended to |
| TaskHistory.CreatedStatusAgreesExactly | app/internal/tasks/repository/postgres/postgres.go:38-88 | row and payload of a new task show the same status from a given time on if and only if the text is not "3", and not "1" unless the task is overdue by then |
| TaskDomain.StorageRoundTrip | app/internal/tasks/domain/task.go:60-86 | storing a status and reading it back gives what reading the text itself gives if and only if the text is neither "1" nor "3" |
| TaskDomain.OverdueStable | app/internal/tasks/repository/postgres/mapper.go:22-25 | applying the overdue rule twice as time advances is applying it once at the later time |
| TaskStore.Repository.Create | app/internal/tasks/repository/postgres/postgres.go:38-96 | builds and executes the one-row statement: succeeds exactly for a valid priority and an id about which the log has never told anything; then row and event are there, otherwise neither |
| TaskStore.Repository.CreateBatch | app/internal/tasks/repository/postgres/postgres.go:98-159 | both batch statements in one transaction: all rows and all events, or nothing; succeeds exactly if the ids are distinct, none is live, nothing was ever told about any, and priorities are valid |
| TaskStore.Repository.BeginUpdate | app/internal/tasks/repository/postgres/postgres.go:494-573 | the UPDATE of an update transaction: fails on a missing row, an empty patch or a bad priority, waits on a locked row |
| TaskStore.Repository.WriteEvent | app/internal/tasks/repository/postgres/postgres.go:575-604 | never fails on the unique constraint: the event carries the row as updated, aged to now, under the next version |
| TaskStore.Repository.Commit | app/internal/tasks/repository/postgres/postgres.go:606-609 | row and event become visible together and are the patch applied to the row as it is at the commit, not as it was at the begin |
| TaskStore.Repository.Update | app/internal/tasks/repository/postgres/postgres.go:494-610 | a whole update from any reachable state: succeeds exactly for a live unlocked row and a valid patch; each supplied field lands in its own column and every other column stays; one event is appended |
| TaskStore.Repository.Delete | app/internal/tasks/repository/postgres/postgres.go:612-656 | from any reachable state goes through exactly for a live row that nobody holds, whatever the unique constraint, and waits for a held one; removes the row and logs a deletion that carries, field by field, what the row held |
| TaskStore.Repository.DeleteBatch | app/internal/tasks/repository/postgres/postgres.go:658-707 | waits exactly while a listed live row is locked; otherwise the listed live rows go and nothing else, with one `deleted` event each however often listed, which carries what that row held; unknown ids are skipped |
| TaskStore.MaxVersionPlusOne | app/internal/tasks/repository/postgres/postgres.go:596-602 | the scan for the maximum is above every `update` version of the task and next to one, or 0 |
| TaskStore.NewExactlyIfUntold | app/internal/tasks/repository/postgres/postgres.go:69-96 | in a reachable state the key, check and unique constraints on a new task come down to: valid priority, not live, never told of |
| TaskStore.DeletableExactlyIfFree | app/internal/tasks/repository/postgres/postgres.go:612-656 | in a reachable state only a row lock keeps a live task from being deleted |
| TaskStore.CommitsOnCurrentRow | app/internal/tasks/repository/postgres/postgres.go:561-608 | in a reachable state what an open transaction is about to commit is its patch on the current row and the next event of its task, which shows the row field by field with the status as it looks when it is read back |
| TaskStore.ExecInsertTasks | app/internal/tasks/repository/postgres/postgres.go:131-142 | executing the built statement inserts the rows of the batch, and fails exactly on a clash within the batch or with the table or on a bad priority |
| TaskStore.ExecInsertEvents | app/internal/tasks/repository/postgres/postgres.go:144-154 | executing the built outbox statement appends one `created` event a task, and fails exactly if one is taken |
| TaskStore.SelectDeletable | app/internal/tasks/repository/postgres/postgres.go:658-700 | the rows a DELETE … IN (…) meets, each once whatever repeats the list has |
| TaskFields.FieldsAreLastGiven | app/internal/tasks/repository/postgres/postgres.go:38-610 | in every run title, description, priority and due date of a live task are each the value last given for it, by its creation or by the latest committed update that supplies it, whatever other updates, rollbacks, interleaved transactions and admin requests there were |
| TaskFields.OwnerAndTagAreLastGiven | app/internal/tasks/repository/postgres/postgres.go:38-610 | in every run the owner is the creator’s for good, and the tag is the one last given, or the default tag if none ever was |
| TaskFields.StatusIsLastGiven | app/internal/tasks/repository/postgres/mapper.go:22-25 | in every run a reader sees a live task as completed if and only if that status was given last, as not completed if and only if that was given last or a task not completed is past its deadline, and otherwise in progress |
| TaskFields.DeletionTellsLastContents | app/internal/tasks/repository/postgres/postgres.go:612-707 | in every run a deletion in the log, single or in a batch, carries what a reader of the events before it held of the task; with domain statuses also a status that looks the same to every later reader |
| TaskHistory.OthersStayOpen | app/internal/tasks/repository/postgres/postgres.go:499-609 | no step but its own next statement or end touches an open transaction; a rollback leaves no trace in tables or log |
| TaskClock.StampsFollowCommitsExactly | app/internal/tasks/repository/postgres/postgres.go:612-656 | with a clock that never goes back, created_at order of a task’s events is their commit order if and only if its deletion is not stamped before the event told before it |
| TaskClock.DeletionStampedEarly | app/internal/tasks/repository/postgres/postgres.go:618-646 | a run in which a deletion, stamped before it waited for the row, carries an earlier time than the update committed before it |
| Statements.BuildUpdate | app/internal/tasks/repository/postgres/postgres.go:505-562 | evaluating the SET list against its arguments writes each supplied field into its own column and leaves the others, whatever the row, and the id is the last argument under the last number; no field given means no statement |
| Statements.BuildCreate | app/internal/tasks/repository/postgres/postgres.go:47-88 | with a tag name and without, the placeholders of the single-create statement decode to the task’s row and its event |
| Statements.BuildBatchInsert | app/internal/tasks/repository/postgres/postgres.go:98-129 | the placeholder groups of both statements decode to exactly the rows and the events of the tasks, in order |
| Statements.BuildSubtaskInsert | app/internal/tasks/repository/postgres/postgres.go:213-228 | the placeholder groups decode to the given titles, numbered in order |
| ListFilters.BuildFilterConditions | app/internal/tasks/repository/postgres/postgres.go:905-934 | one condition for each filter with a known column, a known operator and, for between, two bounds; their arguments concatenated in order |
| ListFilters.FilterClauses | app/internal/tasks/repository/postgres/postgres.go:356-363 | the consumer gives every condition its own arguments, as many as it has question marks; no slice runs out and nothing is left over |
| FilterMeaning.ClauseMeansFilter | app/pkg/utils/operator/operator.go:5-24 | read as the database reads it, the clause of every effective filter lets exactly those values of its own column through that the filter’s name asks for: lt below, gte not below, gt above, lte not above, eq equal, between outside neither bound, like the pattern; it refuses only a like on a column that is no text |
| FilterMeaning.WhereClauses | app/internal/tasks/repository/postgres/postgres.go:356-363 | for every row and every collation: the row passes the WHERE if and only if it meets every effective filter of the request |
| FilterMeaning.EffectiveExactly | app/internal/tasks/repository/postgres/postgres.go:899-930 | a filter takes effect if and only if its column and its operator are among the seven each and a between has exactly one colon in its value |
| FilterMeaning.ILikeContains | app/internal/tasks/repository/postgres/postgres.go:919-921 | a like for a text without wildcards lets exactly the texts through that contain it, in either case |
| FilterMeaning.OperatorsFit | app/pkg/utils/operator/operator.go:6-18 | under a strict total order lt, eq and gt with one value split the rows three ways, lte is lt or eq, gte is gt or eq, and between is gte its lower and lte its upper bound |
| OutboxWorker.AtLeastOnce | app/internal/worker/worker.go:53-102 | in every run of any number of workers, with crashes and failed writes and marks anywhere, each event is still unprocessed or was published |
| OutboxWorker.UndecodableStays | app/internal/worker/worker.go:88-92 | no run of any number of workers publishes an event that cannot be decoded, or marks it processed |
| OutboxWorker.NeverSentBehind | app/internal/tasks/repository/outbox/repository.go:25-57 | once 1000 events that cannot be decoded wait with earlier stamps, an event nobody has fetched is never published or marked in any continuation by any number of workers |
| OutboxWorker.AttemptsNeverExceed | app/internal/tasks/repository/outbox/repository.go:86-104 | with n workers no event counts more than 4 + n attempts, nor more than the column’s 100 |
| OutboxExtremes.AttemptsReached | app/internal/worker/worker.go:65-75 | for every n >= 1 some run of n workers takes an event to 4 + n attempts, or to the column’s 100 if that is less |
| OutboxExtremes.FiveExactlyForOne | app/internal/worker/worker.go:69-75 | at most five attempts in every run if and only if there is at most one worker |
| OutboxBacklog.SentOldestFirst | app/internal/tasks/repository/outbox/repository.go:25-57 | within one tick events go out by ascending creation time |
| OutboxBacklog.TickIsRun | app/internal/worker/worker.go:53-86 | the net effect of a tick on table and broker is that of its single steps in sequence |
| OutboxBacklog.BacklogClears | app/internal/worker/worker.go:53-86 | with p < 1000 events that always fail, the n oldest others are all processed after k ticks as soon as k(1000 - p) >= n |
| OutboxBacklog.PoisonBlocks | app/internal/worker/worker.go:69-75 | 1000 events that always fail and are oldest stop every other event for ever, since exhausted events are still fetched |
| OutboxDelivery.LastEventDecides | app/internal/worker/worker.go:88-102 | a consumer’s view of a task is decided by the last event of it that it gets, whatever was repeated or reordered before |
| OutboxDelivery.NoDeletionIsPublished | app/internal/worker/worker.go:88-92 | in every run of the repository and of any number of workers, what is published is never a deletion |
| OutboxDelivery.ConsumersKeepDeletedTasks | app/internal/worker/worker.go:53-102 | repository and workers composed, any number of workers with any failures and crashes: once everything that decodes has been published, consumers hold exactly the tasks ever created, and agree with the table on a task if and only if it was not deleted |
| OutboxDelivery.DeletionsStarve | app/internal/tasks/repository/outbox/repository.go:25-57 | once the table holds 1000 deletions stamped before an event that waits, that event is never published, whatever the workers and the broker do |
| OutboxOrder.SentInOrderExactly | app/internal/worker/worker.go:53-86 | of two events that one worker has sent, without other failures than the undecodable, ticks falling anywhere between commits, the one committed first is sent first if and only if it has the earlier stamp or the other was not yet in the table at the tick that sent it |
| OutboxOrder.ConsumerHoldsLastVersion | app/internal/worker/worker.go:53-102 | after any run of the repository, and one worker that has sent all that decodes without other failures, the consumer ends with the last version of every task ever created whose updates have different stamps; for a live task that is what the table holds |
| OutboxOrder.FewDeletionsLetBacklogClear | app/internal/tasks/repository/outbox/repository.go:25-57 | while the log holds d < 1000 deletions, the n oldest other events are all sent and marked after k ticks without other failures, as soon as k(1000 - d) >= n |
| OutboxWitnesses.OldVersionStays | app/internal/worker/worker.go:65-79 | one failed send is enough: an update retried after the next one leaves the consumer with the older version, though everything was published and marked and all stamps are in order |
| OutboxWitnesses.DeletionsStopOutbox | app/internal/worker/worker.go:53-102 | a run of the repository after which the outbox stops: n >= 1000 tasks created and deleted, and the next creation is never published in any continuation |
| OutboxProcessor.SelectOldest | app/internal/tasks/repository/outbox/repository.go:25-57 | selects 1000 unprocessed events, or all, with none left out that is older than one taken |
| OutboxProcessor.OutboxRepository.GetUnprocessedEvents | app/internal/tasks/repository/outbox/repository.go:25-57 | a valid batch with the attempts as stored |
| OutboxProcessor.Processor.SendAll | app/internal/worker/worker.go:65-79 | the loop sends the batch in order, collects exactly the successes and counts the failures of events below five attempts |
| OutboxProcessor.Processor.ProcessBatch | app/internal/worker/worker.go:53-86 | a failed read changes nothing; otherwise table and broker end as the tick specification says, for every pattern of failures |
| CacheKeys.BuildCacheKey | app/pkg/utils/CacheKey/build.go:12-44 | prints the request with its filters sorted by name, the upper-cased sort if both halves are given and the limit if positive |
| CacheKeys.BuildCacheKeyWithTag | app/pkg/utils/CacheKey/build.go:46-79 | the same with the tag |
| CacheKeys.SortByName | app/pkg/utils/CacheKey/build.go:21-25 | any arrangement of the fields in which no name precedes a smaller one |
| CacheKeys.OrderIrrelevant | app/pkg/utils/CacheKey/build.go:12-79 | with distinct filter names the key does not depend on the order of the filters |
| CacheKeys.SameKeyExactly | app/pkg/utils/CacheKey/build.go:12-79 | two requests whose separators are in place can share a key if and only if they ask for the same thing, or one shows no sort and has as its last filter one named `sort` that prints like the sort the other shows |
| CacheKeys.KeysAreFaithful | app/pkg/utils/CacheKey/build.go:12-79 | two clean requests with one key have the same user, tag and filters, the same limit if one has a positive limit, and the same sort up to the case of its direction if one has a sort; a request that shows a sort is clean whatever its filters are named |
| CacheKeys.CaseIrrelevant | app/pkg/utils/CacheKey/build.go:33-35 | writing the sort direction in another case leaves the key as it is, and among clean requests that differ in the direction only this does |
| CacheKeys.SemicolonMoves | app/pkg/utils/CacheKey/build.go:27-43 | for every request: writing the next filter, behind a semicolon, into a filter’s value leaves the key as it is |
| CacheKeys.SemicolonClashes | app/pkg/utils/CacheKey/build.go:27-43 | such a pair that a list route answers: text columns, known operators, a shown sort, no limit; two different requests, one key |
| RedisCache.KeysNeverClash | app/internal/tasks/repository/redis/redis.go:143-287 | task entries, list entries and the three kinds of index set never share a Redis key |
| RedisCache.UserIsRecovered | app/internal/tasks/repository/redis/redis.go:289-297 | parsing a printed key finds the tracking set of its user if and only if the user id has no colon and no semicolon |
| RedisCache.ListTextExactly | app/internal/tasks/repository/redis/redis.go:289-297 | a key leads to a tracking set if and only if it starts with tasks:user: |
| CacheIndexes.RunKeepsInv | app/internal/tasks/repository/redis/redis.go:143-287 | after any run of cache calls and waiting, every live entry is in its index sets |
| CacheIndexes.ListsAreInvalidated | app/internal/tasks/repository/redis/redis.go:220-237 | after InvalidateUserLists no list of that user is live, and every other user’s lists are as before |
| CacheIndexes.ListsAreTracked | app/internal/tasks/repository/redis/redis.go:199-218 | a live list is in its user’s tracking set, which expires at least one hour later |
| CacheIndexes.UserTasksAreInvalidated | app/internal/tasks/repository/redis/redis.go:239-263 | after InvalidateUserTaskCaches no task of that owner is live |
| CacheIndexes.TagTasksAreInvalidated | app/internal/tasks/repository/redis/redis.go:265-287 | after InvalidateTagTasks no task with that tag is live |
| CacheLifetimes.TaskLivesADay | app/internal/tasks/repository/redis/redis.go:143-160 | in every run a cached task is found, as it was cached, for exactly 24 hours, as long as it is not set again or deleted and no owner or tag it was ever cached under is invalidated; nothing else ends it |
| CacheLifetimes.ListLivesADay | app/internal/tasks/repository/redis/redis.go:199-218 | in every run a cached list is found for exactly 24 hours, as long as it is not set again and its user’s lists are not invalidated; nothing else ends it |
| CacheLifetimes.IndexedOnlyIfSet | app/internal/tasks/repository/redis/redis.go:143-160 | a task is in the index set of an owner or tag only if it was cached under it at some time |
| CacheLifetimes.OthersStayCached | app/internal/tasks/repository/redis/redis.go:239-263 | a task whose owner never changes is as live after invalidating another user as before |
| CacheRepository.Repository.SetTask | app/internal/tasks/repository/redis/redis.go:143-160 | three writes under string keys keep Redis a faithful image of the structured cache and amount to caching the task and indexing it under owner and tag |
| CacheRepository.Repository.SetList | app/internal/tasks/repository/redis/redis.go:199-218 | the writes under the parsed string key keep Redis a faithful image and amount to caching, tracking and renewing the set to 25 hours |
| CacheRepository.Repository.InvalidateUserLists | app/internal/tasks/repository/redis/redis.go:220-237 | afterwards Redis has no live entry under any key printed for this user, and the keys printed for others are as live as before; the type error cannot occur |
| CacheRepository.Repository.InvalidateUserTaskCaches | app/internal/tasks/repository/redis/redis.go:239-263 | afterwards Redis has no live task of this owner under any task key |
| CacheRepository.Repository.InvalidateTagTasks | app/internal/tasks/repository/redis/redis.go:265-287 | afterwards Redis has no live task with this tag under any task key |
| CacheRepository.SameEntry | app/internal/tasks/repository/redis/redis.go:143-287 | because printed keys never clash, looking up a string key finds what the structured key finds |
| SharedTaskHistory.NegotiationInvariant | app/internal/shared_tasks/service/service.go:38-127 | in every run the stored tasks are those that an onlooker remembers who hears the calls and knows the rules but not the tables, with the same terms and status; the participants are distinct and stay the original two; who is addressed changes with each counter-proposal; a pending task’s terms were last written by its current proposer |
| SharedTaskHistory.StatusIsTheAnswer | app/internal/shared_tasks/service/service.go:89-103 | in every run a task is accepted if and only if, since it was proposed, its addressee of that moment accepted it while it was pending, and rejected if and only if that addressee rejected it |
| SharedTaskHistory.NobodyAnswersOwnTerms | app/internal/shared_tasks/repository/postgres/repository.go:209-221 | whoever can accept or reject did not write the terms last |
| SharedTaskHistory.AnswersAreFinal | app/internal/shared_tasks/repository/postgres/repository.go:209-312 | accepted and rejected, and the roles with them, stay until the task is deleted, in every continuation |
| SharedTaskHistory.OnlyProposerWithdraws | app/internal/shared_tasks/repository/postgres/repository.go:314-354 | while a task is pending, a delete call removes it if and only if the caller is its proposer |
| SharedTaskHistory.OtherTasksUntouched | app/internal/shared_tasks/repository/postgres/repository.go:223-354 | a call about one task leaves row and subtasks of every other as they were |
| SharedTaskHistory.ForeignKeysHold | app/internal/shared_tasks/repository/postgres/repository.go:56-68 | every stored subtask belongs to a stored task |
| SharedTaskHistory.ProposalServesBoth | app/internal/shared_tasks/service/service.go:43-54 | a successful proposal between non-empty ids stores at least one subtask for each participant |
| SharedTaskHistory.ReadsBackInputs | app/internal/shared_tasks/repository/postgres/repository.go:247-263 | after any call that passes subtasks, any read by order number gives the passed list without its blank items, with strictly increasing order numbers |
| SharedTaskHistory.SubtasksAreLastPassed | app/internal/shared_tasks/repository/postgres/repository.go:223-312 | in every run the subtasks of a task read by order number are the list last passed for it without its blank items; answers and edits that pass no list leave them |
| SharedTaskHistory.OrdersStayDistinct | app/internal/shared_tasks/repository/postgres/repository.go:293-309 | in every run no two subtasks of a task share an order number |
| SharedTaskService.ValidateSubtasksForProposal | app/internal/shared_tasks/domain/shared_task.go:23-40 | no error if and only if both participants are among the assignees; a missing own subtask is reported first |
| SharedTaskService.Candidates | app/internal/shared_tasks/service/service.go:43-49 | exactly the assignees of the subtasks that have a title |
| SharedTaskService.Service.Propose | app/internal/shared_tasks/service/service.go:38-60 | checks self-proposal, then own, then friend subtask; otherwise stores the task, pending, with default priority red, and its subtasks |
| SharedTaskService.Service.Accept | app/internal/shared_tasks/service/service.go:89-95 | succeeds exactly for the addressee of a pending task, and then sets accepted |
| SharedTaskService.Service.Reject | app/internal/shared_tasks/service/service.go:97-103 | succeeds exactly for the addressee of a pending task, and then sets rejected |
| SharedTaskService.Service.Update | app/internal/shared_tasks/service/service.go:105-127 | an addressee’s edit of a pending task swaps the roles and says so; any other participant’s edit does not; anyone else changes nothing |
| SharedTaskService.SharedTaskRepository.InsertSubtasks | app/internal/shared_tasks/repository/postgres/repository.go:56-68 | appends one row for each input with title and assignee, numbered by position in the input |
| SharedTaskService.SharedTaskRepository.UpdateTerms | app/internal/shared_tasks/repository/postgres/repository.go:223-266 | replaces the terms and, if passed, all subtasks; false and no change for a stranger |
| SharedTaskService.SharedTaskRepository.CounterPropose | app/internal/shared_tasks/repository/postgres/repository.go:268-312 | replaces the terms and swaps the participants of the old row; false and no change unless addressee of a pending task |
| SharedTaskService.SharedTaskRepository.Delete | app/internal/shared_tasks/repository/postgres/repository.go:314-354 | removes task and subtasks; names the other participant and the title exactly if the task was accepted |
| AdminFlags.HiddenExactlyWhenConfirmed | app/internal/tasks/repository/postgres/postgres.go:711-833 | for every sequence of requests: acknowledged implies deleted; hidden if and only if a participant acknowledged, after it, a soft deletion that no restore has undone; every new soft deletion starts visible |
| AdminLives.TaskFlagsAreLived | app/internal/tasks/repository/postgres/postgres.go:711-802 | in every run of the tasks repository a live row’s flags are what the requests about it since its creation make of them; commits of updates begun earlier change nothing |
| AdminLives.TaskHiddenExactly | app/internal/tasks/repository/postgres/postgres.go:354 | in every run a live task is hidden from its owner’s list exactly when the owner acknowledged, after it, a soft deletion not undone since |
| AdminLives.SharedFlagsAreLived | app/internal/tasks/repository/postgres/postgres.go:743-833 | in every run of the shared-task service a row’s flags are what the requests about it make of them, participants taken at the time of each |
| AdminLives.SharedHiddenExactly | app/internal/shared_tasks/repository/postgres/repository.go:86-87 | in every run a shared task is hidden from its participants’ lists exactly when one of them acknowledged, after it, a soft deletion not undone since |
| GroupedLoading.IndexById | app/internal/shared_tasks/repository/postgres/repository.go:146-149 | each id is mapped to its last index |
| GroupedLoading.FindTasksWithSubtasks | app/internal/shared_tasks/repository/postgres/repository.go:105-161 | each task gets exactly the read rows that carry its id, in reading order; other rows go nowhere |
| GroupedLoading.GroupedEqualsAlone | app/internal/shared_tasks/repository/postgres/repository.go:186-206 | after any run, whatever way the database breaks ties across tasks, grouped loading gives each task what loading it alone gives |
| BatchQueue.NothingLostOrReordered | app/internal/tasks/batch/batch.go:62-124 | at every point of every run: flushed, then buffer, then channel are the accepted items in order, and each flush has 1 to 500 items |
| BatchQueue.FlushesExactly | app/internal/tasks/batch/batch.go:62-124 | in every run a received item flushes if and only if it is the 500th in the buffer, timer, cancellation and end of the drain flush whatever is there, nothing else flushes, and an item is refused if and only if 10000 wait |
| BatchQueue.DrainFlushesAll | app/internal/tasks/batch/batch.go:110-124 | the drain ends, with channel and buffer empty and everything held flushed once |
| BatchQueue.FlushedExactlyUntilStop | app/internal/tasks/batch/batch.go:95-124 | in every run, whatever producers do before, during and after the drain: what has been flushed once the worker has stopped is, in order, exactly what was accepted before the stop; what is accepted later stays in the channel |
| BatchQueue.StoppedFlushesNothing | app/internal/tasks/batch/batch.go:62-80 | after the worker has stopped, accepted items stay in the channel for ever |
| BatchProcessor.Processor.Receive | app/internal/tasks/batch/batch.go:97-101 | takes the oldest item and flushes at 500 |
| BatchProcessor.Processor.Shutdown | app/internal/tasks/batch/batch.go:110-124 | drains the channel in full, then flushes the rest |
| BatchProcessor.FlushCreate | app/internal/tasks/batch/batch.go:129-147 | one create call for each task with a tag name, in order, then one batch call with all others in order, if there are any; alone go exactly those whose tag name is not empty once trimmed; the buffer is not touched |
| Text.BlankExactly | app/internal/tasks/batch/batch.go:135 | trimming leaves nothing of a text if and only if it is all white space |
| BatchProcessor.SelectSplits | app/internal/tasks/batch/batch.go:129-142 | the two parts together are the input as a multiset |
| BatchProcessor.Select | app/internal/tasks/batch/batch.go:129-142 | one part of the split: it holds only tagged, or only untagged, tasks |
| BatchProcessor.SelectKeepsOrder | app/internal/tasks/batch/batch.go:129-142 | each part is a subsequence of the input |
| BatchProcessor.FlushDeliversAll | app/internal/tasks/batch/batch.go:129-147 | the calls of a flush deliver the tagged tasks and then the others, together a permutation of the input |
| BatchProcessor.AcceptedUntilStopReachRepository | app/internal/tasks/batch/batch.go:95-147 | in every run exactly the tasks accepted before the worker stopped are handed to the repository, each in one call |
| FlushEffects.FlushCreate | app/internal/tasks/batch/batch.go:129-147 | the flush run on the repository: its tables end as the single creates and then the one batch leave them, errors ignored |
| FlushEffects.FlushBecomesRows | app/internal/tasks/batch/batch.go:129-147 | exactly these tasks of a flush become rows: each tagged one that is the first of its id to meet the constraints, and either all untagged ones or, if one is refused, repeats an id or meets one just entered, none of them |
| BatchProcessor.TokensCountJobs | app/internal/tasks/batch/batch.go:149-166 | in any interleaving of taking a token, starting, ending and giving it back, held tokens equal jobs that hold one, at most 500 |
| BatchProcessor.RunningAgainstTokens | app/internal/tasks/batch/batch.go:151-165 | running jobs never exceed held tokens, equal them exactly when no job is between taking its token and starting or between ending and giving it back, and giving back never waits |
| SubtaskCompletion.LastToggleCompletes | app/internal/tasks/service/service.go:218-244 | in every interleaving of the separate toggle, count and complete steps of any number of calls, once all calls have finished a task whose subtasks are all done is completed |
| SubtaskCompletion.CompletedOnlyAfterAllDone | app/internal/tasks/service/service.go:218-244 | in every interleaving without deletions, however calls fail, a task gets completed only after a moment at which it had subtasks and all of them were done |
| SubtaskCompletion.DoneExactlyIfOddlyToggled | app/internal/tasks/repository/postgres/postgres.go:277-292 | in every run, deletions and failed calls included, a stored subtask is done if and only if an odd number of toggles has taken effect on it since it was added; its task and title are those last given |
| SubtaskCompletion.TogglingTwiceUndoes | app/internal/tasks/repository/postgres/postgres.go:277-292 | the second of two toggles in a row takes the first one back |
| SubtaskCompletion.CountTestExactly | app/internal/tasks/repository/postgres/postgres.go:294-304 | no open subtask if and only if AllSubtasksDone or no subtask at all |
| SubtaskCompletion.CheckAgreesWithDomain | app/internal/tasks/domain/task.go:109-119 | wherever a call reaches its count, the count agrees with AllSubtasksDone |
| SubtaskCompletion.DeletionBreaksExactly | app/internal/tasks/repository/postgres/postgres.go:306-322 | deleting a subtask leaves a task uncompleted with all subtasks done if and only if it was the only open one among several and nothing had completed or was about to complete the task |
| SubtaskCompletion.SubtaskService.ToggleSubtaskDone | app/internal/tasks/service/service.go:218-244 | one uncontended call turns the mark of the subtask over, completes the task exactly if the subtask is now done and none is open, changes nothing else, and is its three steps in sequence |
| SubtaskCompletion.CountOpen | app/internal/tasks/repository/postgres/postgres.go:294-304 | the count is the number of open subtasks of the task |
| Reminders.WindowsAreDisjoint | app/internal/worker/reminder.go:41-51 | no due date is in two windows at one instant |
| Reminders.TwoMinutesSuffice | app/internal/worker/reminder.go:30-51 | every covered due date gets a tick in each window if and only if no gap between ticks exceeds two minutes and one microsecond |
| Reminders.OncePerTick | app/internal/worker/reminder.go:58-75 | at most one reminder a tick in the window, and none after a mark, however sends and marks fail |
| Reminders.AtMostThreeReminders | app/internal/worker/reminder.go:48-75 | with ticks at least a minute apart a window sends at most three reminders about a task, even if no mark succeeds |
| Reminders.ExactlyOneReminder | app/internal/tasks/repository/postgres/subscription.go:57-101 | with small enough gaps and no failure, a task eligible at the ticks of a covered window gets exactly one reminder in it |
| Reminders.RemindedExactly | app/internal/tasks/repository/postgres/subscription.go:57-67 | in every run a tick reminds about a task if and only if the call succeeds, the status last set is not 3, the owner’s subscription as last stored is active and unexpired and a chat is known, the deadline is 60, 15 or 5 minutes ahead, give or take one, and that window is not marked |
| Reminders.ReminderWorker.FindTasksDueForReminder | app/internal/tasks/repository/postgres/subscription.go:57-90 | lists exactly the tasks not completed, due in the window and unmarked, whose owner has an active, unexpired subscription and a chat, each once |
| Reminders.ReminderWorker.ProcessWindow | app/internal/worker/reminder.go:48-75 | sends to the listed tasks in order and marks exactly those sent whose mark succeeds |

## Left out

- Id spelling: ids are parsed UUIDs, so the uuid.Parse guards, malformed assignee ids and Go-text against SQL-uuid comparison are not modelled.
- Time zones and due dates finer than a microsecond.
- The tag tables: the tag a name resolves to is a parameter of create and update, and in the create statement one more value.
- TaskOutbox.ReplayRebuildsTasks: does not replay tag, creation time and status history, because the create payload is built before they are filled in; soft deletion, subtasks and reminder marks emit no event.
- TaskOutbox.UpdatesNeverCollide: takes from PostgreSQL that a row lock is held from the update to the end of the transaction and that a statement sees what was committed when it starts (read committed).
- A statement that meets a locked row does nothing in its step; its turn comes in a later step.
- TaskClock.StampsFollowCommitsExactly: one clock for all callers, which never goes back.
- OutboxOrder.ConsumerHoldsLastVersion: one worker; events appear in the table in commit order; two updates of a task with equal stamps, whose order the database chooses, are outside it; the status is not compared.
- A NULL due date or creation time, whose deletion payload would decode: every writer sets both.
- NULL in admin_deleted, user_ack or created_at: columns have their defaults.
- Concurrent steps inside shared Update and Delete and inside AdminRestore, which read in Go and then write; each is one step here.
- SharedTaskHistory.ProposalServesBoth: holds right after the proposal only, because edits may replace all subtasks.
- The is_done column of shared subtasks, and with it the shared ToggleSubtaskDone; a rewrite of subtasks resets it.
- OutboxWorker.AtLeastOnce: published means that Write returned nil; the Kafka client writes asynchronously.
- MarkAsProcessed for a single event: the worker does not use it.
- OutboxBacklog.BacklogClears: needs reads and marks to succeed, and events that arrive later to carry later times.
- CacheIndexes.ListsAreInvalidated: each cache call is one step; a SetList between the SMembers and the Del of an invalidation can stay cached untracked.
- A Redis pipeline that fails after its first command, which can leave a live entry without its index; every pipeline here runs to its end.
- CacheRepository.Repository.SetList: takes keys that start as the builders start them, as all callers pass; other users of the same Redis database are not modelled.
- The contents of cached lists and tasks beyond owner and tag, list encoding, GetTask and GetList.
- Coherence of cache and database: cache writes run in the background and are skipped when the semaphore is full.
- CacheKeys.KeysAreFaithful: a sort_by with a colon or a semicolon, which the sort middleware lets through, is outside it.
- CacheKeys.SortByName: sort.Slice is modelled by an insertion sort proved against the only thing sort.Slice promises, some sorted arrangement; the keys' theorems hold for every such arrangement.
- FilterMeaning.ClauseMeansFilter: columns are never NULL; what comparing values of unlike types yields is left to the order, which is a parameter; ILIKE folds the case of ASCII letters only.
- ToUpper is ASCII; strings are sequences of characters without encoding.
- BatchQueue.FlushedExactlyUntilStop: presumes that the worker runs to its end after the cancellation; app/cmd/main.go cancels last and waits for no worker, so the process may end first.
- FlushEffects.FlushCreate: time limits and lost connections, and a create that waits for another open transaction; the flush gets the buffer's own slice, and that it is synchronous is what keeps that safe. flushDelete has no such split and is left out, as are the bodies of the cache goroutines.
- The two batch workers share one model: channel, buffer and loops are the same for both.
- SubtaskCompletion.LastToggleCompletes: no call fails, nothing is deleted and users do not set the task's status themselves meanwhile.
- Reminders.ExactlyOneReminder: the due date does not change; changing it does not reset the marks.
- app/worker/reminder_worker.go is not part of this model: nothing starts it.
- FindAllFiltered, ordering and paging of lists, tags CRUD, subscription reads, read-only queries: they would only add easy members.
- JSON beyond whether a payload's times carry a zone, HTTP, Kafka, notifications, configuration, logging, metrics and the circuit breaker.
