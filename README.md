# rpc-tcc coordinator core, modelled in Dafny

This project models the Try-Confirm-Cancel (TCC) coordinator of `rpc-tcc` in Dafny. The model has three parts:

- **Invocation log.** This is a durable table with one row per (phase, transaction id, request id, service class, service method). Each row carries a status (Wait, Fail, Success), an execution count, a retry limit, the stored result and a last-modified time `mt`.
- **Per-call-chain coordinator (`Transaction`).**
  - `getTransaction` decides whether the node is the first node of the chain.
  - `beginTransaction` and `getService` guard the started state.
  - `addServiceFun` keeps the ordered list of successful Try calls and the hierarchical request counter.
  - `commit` and `rollBack` insert Confirm or Cancel rows for that list and replay it in recorded order.
  - `execServiceMethod` is the idempotent path every participant call runs through.
  - The service proxy (`InjectService`) records a call only after it returns.
- **Compensation worker.** It has four duties over the same log:
  - purge old Success rows;
  - re-drive local Confirm/Cancel rows;
  - re-drive remote ones;
  - cancel local Try rows whose transaction never finished.

Modules:

- `Rpc` (`rpc.dfy`): phases, opaque values, the description of a service call, error kinds.
- `Ids` (`ids.dfy`): decimal rendering, request ids (`getTransactionReq`), transaction ids (`createTransactionId`), the pool list (`setDbPools`).
- `InvocationLog` (`log.dfy`): rows, the store `map<Key, Row>`, the row updates, and the class `Log` whose methods are single statements against the table.
- `Replay` (`replay.dfy`): functions that say what the insert loop and the replay loop of `commit`/`rollBack` do, and the lemmas about them.
- `Coordinator` (`coordinator.dfy`):
  - the ambient context `Env`;
  - the classes `Transaction` and `InjectService`;
  - the imperative insert and replay loops, proved equal to the `Replay` functions.
- `Compensation` (`compensation.dfy`): the worker's selection filters, its per-row transitions and its three loops.

Participant services are a parameter `svc: Call -> Outcome`. `Outcome` is either a returned value or a throw, and `Call` carries the ambient phase, transaction id, request id and local-request flag. The database clock that stamps `mt` is the field `Log.clock`. The worker's clock is the parameter `now`.

Three behaviours of the code a reader might not expect:

- **A Fail row is not terminal.** `execServiceMethod` short-circuits only on Success, so a Fail row's method runs again and can become Success (`InvocationLog.FailRowRunsAgain`).
- **The replay applies the failure update itself.** After a failed Confirm/Cancel replay call, the coordinator's detached task applies the failure update to the row (src/Transaction.php:419-432, 503-516).
- **The local repair duty does not count a failed attempt.** When its call throws, the worker leaves the row untouched (src/Processes/CmpTransactionProcess.php:161-163); a local row's failures are counted only by the participant's own execServiceMethod.

## Model

| member | source | states |
|---|---|---|
| Ids.Dec | src/Transaction.php:664-675 | the decimal rendering of a counter is non-empty and all digits |
| Ids.DecInjective | src/Transaction.php:664-675 | distinct counters render to distinct strings |
| Ids.ReqId | src/Transaction.php:664-675 | a request id starts with `parent-` when the parent is non-empty, is the bare index on a first node whose parent is empty, and always ends with the index |
| Ids.ReqIdsDistinct | src/Transaction.php:556-572 | distinct indexes of one coordinator give distinct request ids, even when the process transaction number has changed between the two |
| Ids.TransactionIdFor | src/Transaction.php:688-698 | a drawn transaction id starts with the origin (trace id, pid, coroutine id) followed by `-` |
| Ids.TransactionIdsDistinct | src/Transaction.php:688-698 | two values of the process counter never give the same transaction id |
| Ids.Truthy | src/Transaction.php:612-621 | array_filter keeps exactly the entries that empty() rejects |
| Ids.Unique | src/Transaction.php:612-621 | array_unique keeps every value once, in order of first occurrence |
| Ids.TruthyKeepsOrder | src/Transaction.php:612-621 | filtering does not reorder first occurrences |
| Ids.PoolList | src/Transaction.php:612-621 | the pool list has no repetitions; it holds exactly the non-empty given pools (or `default` when none are given) plus the configured pool, which is always present when non-empty; given pools keep their order |
| InvocationLog.Retried | src/Transaction.php:277-287 | the failure update adds one to the count and flips the row to Fail exactly when it already was Fail or the new count reaches max_retry; the status is otherwise unchanged, and arguments, locality, limit and result are kept |
| InvocationLog.WaitRow | src/Transaction.php:199-208 | a new row is Wait, never executed, with the default retry limit 5, no result, the given arguments and locality, stamped with the insert time |
| InvocationLog.Succeeded | src/Transaction.php:236-245 | the success update counts one more execution, sets Success and stores the result |
| InvocationLog.RetryExhaustion | src/Transaction.php:277-287 | a Wait row failing n more times counts every attempt and becomes Fail exactly when its count reaches max_retry, never before; until then it stays Wait |
| InvocationLog.MarkSuccess | src/Transaction.php:236-245 | the success update applies to the key's row only; the set of keys and every other row are unchanged |
| InvocationLog.MarkRetry | src/Transaction.php:277-287 | the failure update applies to the key's row only; the set of keys and every other row are unchanged |
| InvocationLog.Cached | src/Transaction.php:181-194 | the log answers a call only from a Success row under its key, with that row's stored result; a Wait, Fail or missing row answers nothing |
| InvocationLog.Prepared | src/Transaction.php:196-228 | before the call, a key without a row gets a local Wait row with count 0; outside Try the Success Try row of the same invocation is deleted; an existing Wait/Fail row is left as it is, and nothing else changes |
| InvocationLog.SuccessIsCached | src/Transaction.php:181-194 | after a recorded success, the next call with the same key finds the stored result |
| InvocationLog.FailRowRunsAgain | src/Transaction.php:192-245 | a Fail row is neither answered from the log nor re-inserted, and a return makes it Success with the result |
| InvocationLog.Log.constructor | src/Model/TransactionModel.php:9-19 | a log holding the given rows, stamped by the given clock |
| InvocationLog.Log.Find | src/Transaction.php:181-190 | the lookup finds a row exactly when the key has one, and returns that row |
| InvocationLog.Log.Insert | src/Transaction.php:198-211 | an insert adds the row exactly when the key is new and refuses it otherwise |
| InvocationLog.Log.Delete | src/Transaction.php:267-271 | the delete removes the key's row and nothing else |
| InvocationLog.Log.DeleteIfSucceeded | src/Transaction.php:213-226 | the conditional delete removes the key's row only when it is Success |
| InvocationLog.Log.UpdateSuccess | src/Transaction.php:237-245 | the success update applies Succeeded to the key's row, if any |
| InvocationLog.Log.UpdateRetry | src/Transaction.php:277-287 | the failure update applies Retried to the key's row, if any |
| Replay.ReplayCalls | src/Transaction.php:397-435 | the replay calls each entry's service once, in recorded order, when the clone was started, and not at all otherwise; under Cancel the context's transaction id is left alone |
| Replay.ReplayFrame | src/Transaction.php:397-435 | the replay touches no row other than the entries' own rows |
| Replay.StepOther | src/Transaction.php:480-519 | one replay step changes no row but its entry's |
| Replay.StepOwn | src/Transaction.php:480-519 | one replay step deletes its entry's row when the call returned and applies the failure update otherwise |
| Replay.ReplayRows | src/Transaction.php:480-519 | with distinct keys, each entry's row is touched exactly once: gone when its call returned, otherwise updated once by the failure update |
| Replay.InsertFresh | src/Transaction.php:448-470 | inserting fresh, distinct keys always succeeds and adds exactly one Wait row (count 0) per entry, leaving the other rows alone |
| Replay.FreshEntryOutcome | src/Transaction.php:480-519 | after fresh inserts and a started replay, an entry's row survives exactly when its call threw, and then it is Wait with count 1 |
| Replay.FreshRows | src/Transaction.php:480-519 | FreshEntryOutcome for every entry |
| Replay.FreshCalls | src/Transaction.php:480-519 | a replay started with no calls makes exactly one call per entry, in recorded order |
| Replay.FreshFrame | src/Transaction.php:443-522 | inserts plus replay leave every row outside the entries' keys as it was |
| Replay.ReplayFresh | src/Transaction.php:443-522 | inserts plus replay: every insert succeeds, one call per entry in order, each entry's row as FreshEntryOutcome says, no other row changed |
| Replay.CommitConfirmsRecordedEntries | src/Transaction.php:443-522 | on a started first node whose Confirm inserts succeeded, commit calls Confirm once for each recorded entry, in recorded order, under the entry's own transaction id, and for nothing else; each Confirm row ends deleted or as a Wait row tried once |
| Replay.CancelsRecordedEntries | src/Transaction.php:363-438 | when its Cancel inserts succeed, rollBack calls Cancel once for each recorded entry, in recorded order, under the ambient transaction id, and never for an unrecorded service; each Cancel row ends deleted or as a Wait row tried once |
| Replay.InsertWaitRows | src/Transaction.php:371-394 | the insert loop of rollBack (and of commit, lines 448-470) adds one Wait row per entry under the entry's key, with count 0 and is_local 0, in order; the first key that already has a row stops the loop as a failure; existing rows are never overwritten |
| Replay.InsertOk | src/Transaction.php:448-470 | when the insert loop gets through the list, the entries' keys were distinct and none had a row, and exactly those keys were added (the converse of InsertFresh) |
| Replay.TxFor | src/Transaction.php:480-486 | commit's replay sets the transaction id from the entry (lines 482-484); rollBack's replay (lines 399-400) leaves the ambient id |
| Replay.ReplayCall | src/Transaction.php:397-405 | a replayed entry calls its recorded class, method and arguments under the replay phase, the entry's request id and the chosen transaction id |
| Replay.Step | src/Transaction.php:397-433 | one iteration of the replay loop (commit's is lines 480-517): the phase, id and request id are set on the clone; getService refuses a clone that was not started (lines 306-311), which the catch turns into the failure update; a returned call deletes the row and, through addServiceFun, advances the clone's counter and request id; a thrown call applies the failure update |
| Replay.ReplayAll | src/Transaction.php:480-517 | the replay loop is Step applied to every entry, in recorded order |
| Replay.ConfirmTask | src/Transaction.php:476-521 | commit's detached task replays every entry under Confirm on the log its inserts left |
| Replay.CancelTask | src/Transaction.php:368-437 | rollBack's detached task inserts the Cancel rows and, when every insert succeeded, replays every entry under Cancel |
| Replay.RollBackTask | src/Transaction.php:363-437 | rollBack runs its Cancel task only when the phase was Try, and otherwise leaves the log alone |
| Coordinator.ChooseId | src/Transaction.php:334-346 | a first node always draws a fresh id and advances the counter; another node keeps its own id, else adopts the context's, and draws only when both are empty; the id is never empty |
| Coordinator.InsertEntries | src/Transaction.php:448-470 | the insert loop computes InsertWaitRows: one Wait row per entry in order, stopping at the first duplicate key |
| Coordinator.InsertStops | src/Transaction.php:371-394 | after a failed insert, the rest of the list changes nothing |
| Coordinator.ReplayEntries | src/Transaction.php:480-519 | the replay loop computes ReplayAll: the log and the calls the loop leaves are exactly the replay function's |
| Coordinator.ReplayOne | src/Transaction.php:480-517 | one iteration of the replay loop leaves the log, the calls, the context and the counter exactly as Step says |
| Coordinator.StartsChain | src/Transaction.php:109-113 | a node is first in its chain when the context has no phase, or has Try in a coroutine that already started a chain |
| Coordinator.Env.constructor | src/Transaction.php:21-26 | a context with the given phase, id, request id and local flag, no first-node flag, no parent request and no current coordinator |
| Coordinator.Transaction.Get | src/Transaction.php:104-124 | getTransaction: first node exactly when the context has no phase, or has phase Try in a coroutine that already started a chain; the phase defaults to Try; the pool list is PoolList; the new coordinator is not started and becomes the current one |
| Coordinator.Transaction.GetService | src/Transaction.php:306-313 | getService succeeds exactly when the coordinator is started, with a fresh proxy bound to it |
| Coordinator.Transaction.BeginTransaction | src/Transaction.php:318-358 | begin is refused, with nothing changed, while started; otherwise the parent request is fixed the first time only, the id follows ChooseId, a first node resets the phase to Try, the list and index restart, the context request id becomes index 0's |
| Coordinator.Transaction.Start | src/Transaction.php:325-357 | the started state described in BeginTransaction, and a non-empty transaction id |
| Coordinator.Transaction.AddServiceFun | src/Transaction.php:556-572 | a Try call appends exactly one entry, other phases none; the index always advances by one and the context request id becomes the new index's |
| Coordinator.Transaction.Commit | src/Transaction.php:443-522 | a first node whose insert hits an existing key fails with DuplicateKey, leaving the coordinator started; otherwise the coordinator is no longer started and a first node's log and calls are those of the Confirm replay of the snapshot taken at the call; other nodes touch nothing |
| Coordinator.Transaction.RollBack | src/Transaction.php:363-438 | the coordinator is no longer started; the log and calls are those of the Cancel task on the snapshot when the phase was Try, and unchanged otherwise |
| Coordinator.Transaction.CommonRollBack | src/Transaction.php:129-147 | the current coordinator is rolled back exactly when it exists and is started; otherwise nothing changes |
| Coordinator.Transaction.ExecServiceMethod | src/Transaction.php:159-297 | no phase or no phase method fails before touching the log; a Success row answers its result with no call; otherwise the log is Prepared and the call made; a return marks the row Success and returns the result; a throw first rolls back a started coordinator, then in Try deletes the row and rethrows, and elsewhere applies the failure update and rethrows only on a local request (else null) |
| Coordinator.InjectService.constructor | src/InjectService.php:22-26 | a proxy for the class, bound to the coordinator |
| Coordinator.InjectService.SetTransaction | src/InjectService.php:28-32 | rebinds the proxy and returns the same proxy |
| Coordinator.InjectService.Invoke | src/InjectService.php:34-51 | the call carries the context read before it; a throw records nothing and changes nothing; a return gives back the result unchanged and records the call once, with the coordinator's id and the phase and request id read before the call |
| Compensation.Purged | src/Processes/CmpTransactionProcess.php:88-96 | the purge removes exactly the Success rows last changed at least four hours ago and keeps every other row unchanged |
| Compensation.PurgeKeepsPending | src/Processes/CmpTransactionProcess.php:88-96 | a Wait or Fail row always survives the purge, and purging twice is purging once |
| Compensation.DelHistoryData | src/Processes/CmpTransactionProcess.php:88-96 | delHistoryData leaves the log as Purged says |
| Compensation.Selection | src/Processes/CmpTransactionProcess.php:122-137 | the repair query selects exactly the Wait Confirm/Cancel rows of the asked locality that are quiet for a minute and below their retry limit |
| Compensation.RepairCalls | src/Processes/CmpTransactionProcess.php:139-151 | the repair makes one call per listed row, in order, with the row's phase, id, request id and stored arguments |
| Compensation.RepairCall | src/Processes/CmpTransactionProcess.php:139-148 | a repair call puts the row's id, phase and request id in the context and calls its class and method with the stored arguments; the local duty also sets the local-request flag (line 144), the remote duty does not |
| Compensation.LocalAttempt | src/Processes/CmpTransactionProcess.php:145-163 | a local repair that returns marks the row Success with the result; one that throws leaves the row as it was |
| Compensation.LocalRepaired | src/Processes/CmpTransactionProcess.php:139-164 | the local repair keeps the set of rows |
| Compensation.RemoteRepaired | src/Processes/CmpTransactionProcess.php:210-238 | the remote repair never adds a row |
| Compensation.LocalRepairedStep | src/Processes/CmpTransactionProcess.php:139-164 | attempting one more row in the local duty changes only that row |
| Compensation.RemoteRepairedStep | src/Processes/CmpTransactionProcess.php:210-238 | attempting one more row in the remote duty deletes it (returned) or applies the failure update to it (threw), and changes no other row |
| Compensation.LocalPass | src/Processes/CmpTransactionProcess.php:139-164 | the local loop over the listed rows keeps the set of keys and leaves every unlisted row unchanged |
| Compensation.RemotePass | src/Processes/CmpTransactionProcess.php:210-238 | the remote loop over the listed rows never adds a row and leaves every unlisted row unchanged |
| Compensation.RemoteRounds | src/Processes/CmpTransactionProcess.php:193-238 | successive remote passes, each querying the log the previous one left, never add a row |
| Compensation.LocalRepairIsCached | src/Processes/CmpTransactionProcess.php:145-161 | a successful local repair leaves the row Success with one more execution, so the next call under the key answers the stored result |
| Compensation.RemoteRepairProgress | src/Processes/CmpTransactionProcess.php:210-238 | each selected remote row is gone when its call returned and is otherwise counted once more, becoming Fail exactly at the limit; unselected rows are untouched |
| Compensation.RemoteRoundsRow | src/Processes/CmpTransactionProcess.php:193-237 | successive remote passes, a quiet period apart, over a row whose call keeps failing select it each time; each pass counts one more attempt, and the row is Wait until the pass that brings its count to the limit, then Fail |
| Compensation.RetriesEnd | src/Processes/CmpTransactionProcess.php:193-237 | a remote row whose call keeps failing is Fail, with its count at the limit, after as many passes as the limit allows, and is never selected again |
| Compensation.QueryOrder | src/Processes/CmpTransactionProcess.php:122-138 | the query returns every selected row exactly once, in an order nothing fixes |
| Compensation.LocalPassAnyOrder | src/Processes/CmpTransactionProcess.php:139-164 | the local duty's result does not depend on the order the query returns the rows in |
| Compensation.RemotePassAnyOrder | src/Processes/CmpTransactionProcess.php:210-238 | the remote duty's result does not depend on that order either |
| Compensation.CmpLocalService | src/Processes/CmpTransactionProcess.php:101-166 | every selected row is attempted once with the local flag set; a return marks it Success with the result, a throw leaves it as it was; one row's failure does not stop the loop |
| Compensation.CmpRemoteService | src/Processes/CmpTransactionProcess.php:172-240 | every selected row is attempted once without the local flag; a return deletes it, a throw applies the failure update; one row's failure does not stop the loop |
| Compensation.Orphans | src/Processes/CmpTransactionProcess.php:267-277 | the orphan query selects exactly the local Success Try rows that ran at least once and are older than the Try timeout |
| Compensation.OrphanCancelCall | src/Processes/CmpTransactionProcess.php:279-286 | the orphan duty calls the Try row's method under Cancel, with the row's id, request id and stored arguments and the local-request flag set |
| Compensation.OrphanCancelClearsTry | src/Processes/CmpTransactionProcess.php:279-290 | when the Cancel of an orphan first reaches execServiceMethod, preparing its key deletes the orphaned Try row |
| Compensation.CancelLocalTryService | src/Processes/CmpTransactionProcess.php:246-293 | every orphan gets exactly one Cancel call, with its own id and request id and the local flag, newest mt first; the worker itself writes nothing to the log |

## Left out

- `handle()` (src/Processes/CmpTransactionProcess.php:54-83) is left out: its distributed lock, lease, `goto` loop and random sleeps are timing and an external lock. Each duty is a method called on its own.
- The per-duty `go(...)` and `defer` re-entrancy flags are left out: they only keep one duty from running twice at once, which is coroutine concurrency.
- `commit` and `rollBack` run their detached task in a new coroutine. The model runs that task synchronously, to completion, after the local commit or rollback, on a copy of the caller's context. Interleavings with other coroutines are not modelled.
- The per-pool local database transactions (`dbBeginTransaction`, `dbCommit`, `dbRollBack`) are kept only as the flag `Transaction.localTxnOpen`. Log writes are not undone by a local rollback.
- `createTransactionId` folds the trace id, pid and coroutine id into one `origin` string per context. The model keeps the shape `origin-counter` and the increment of the static counter.
- `rpc_context_get/set`, `Context` and `rpc_service_get` are replaced by the class `Env` and the service parameter `svc`.
- The dynamic `__call`/`method_exists` dispatch is replaced by the set of phases a service implements (`implemented`).
- `serialize`/`unserialize` are the identity on `Value`.
- Service calls are deterministic in the call description.
- `svc` never writes the log. What the participant's own execServiceMethod does to the log during a call is not composed with the caller's update. When the participant shares the log, its execServiceMethod computes the same five-field key (src/Transaction.php:172-178) from the context the caller sets, and it writes that very row. The following contracts therefore describe only the coordinator's or the worker's own writes:
- Replay.CommitConfirmsRecordedEntries: "each Confirm row ends deleted or as a Wait row tried once" counts only the coordinator's writes, not the participant's Success or failure update of the same row (src/Transaction.php:236-245, 277-287).
- Replay.CancelsRecordedEntries: the same holds for the Cancel rows.
- Compensation.LocalRepairIsCached: the single extra execution is the worker's own; the participant's execServiceMethod may add its own.
- Coordinator.InjectService.Invoke: the Try call's own row in the participant's log is not part of the contract.
- Compensation.RetriesEnd: stated for the remote duty only. The local duty leaves a failing row untouched, so a local row's failures are counted only by the participant's execServiceMethod, which is not composed here; the model shows no local row reaching Fail.
- Compensation.RemoteRoundsRow: assumes the database clock agrees with the worker's clock at each pass.
- A context phase that is a non-null empty string is not modelled. The phase is either absent or one of the three phases.
- `mt` is assumed to be stamped by the database clock on every insert and update, and `ct` is not modelled.
- Confirm and Cancel rows inserted by `commit`/`rollBack` take `is_local` = 0, the column default.
- The invocation-log key is assumed unique: a second insert under a key is refused.
- `isTransaction()` (src/Transaction.php:528-531) is the field `Transaction.isTransaction`. `GetService`, `CommonRollBack` and `ExecServiceMethod` read it directly.
- `getTransactionId`, `setTransactionId`, `getTransactionType`, `setTransactionType`, `setIsFirstNode` and `setTransactionReq` are plain field and context writes. They are inlined where they are called.
- The `var_dump` diagnostics and the redis pool setting are left out.
- Coordinator.Transaction.CommonRollBack: does not model the `Db::rollBack(0)` branch, because that branch is a foreign database call with no coordinator involved.
