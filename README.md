# Replicated bank ledger — a Dafny model

This project models the core of a replicated bank written in Java. Each replica keeps an
embedded SQL database with two tables: ACCOUNTS (id, balance) and OPERATIONS (a log of
creations, movements and transfers). Replicas and client stubs talk over a group
channel.

The model covers five parts of the Java code:

- **Client stub.** It numbers each request `msgId@stubId` and multicasts it. It takes as
  its reply the one non-invocation packet that carries that id.
- **Replica server.** It answers every delivered invocation through its bank. When it
  starts in recovery, it works in three phases:
  - it drops traffic until its own STATE request comes back through the group;
  - it then queues traffic;
  - when the first peer answer arrives, it replays the operations in that answer and
    then serves the queue in arrival order.
- **Bank engine.** It implements create, balance, movement and transfer, plus the
  recovery replay, which uses a "first sighting" rule: for each account, only the first
  operation mentioning it sets its balance.
- **Data layer.** It models the two tables with their primary and foreign keys (a
  rejected INSERT is caught and leaves the table unchanged), the two id counters, and
  the query `getOperationsAfter` (`OP_ID >= n`, `ORDER BY TIMESTAMP DESC`).
- **Balance cache.** It is bounded. When full, it evicts a smallest-timestamp entry from
  a priority queue.

How the model is organised:

- Each Java class with mutable fields becomes a Dafny `class` with the same fields:
  `CacheManager`, `DataAccess`, `BankImpl`, `Server`, `BankStub`.
- Each such class has a value snapshot (`CacheState`, `Db`, `ServerView`) and pure
  transition functions on that snapshot (`AddedAt`, `AfterMovement`, `Moved`, `Replay`,
  `Delivered`, …).
- Every method is proved to move its object from `old(State())` to the matching function
  of it.
- The properties are lemmas about those functions.

Files, one module each:

| file | module | models |
|---|---|---|
| wrappers.dfy | Wrappers | `Option`, standing for Java's nullable references |
| communication.dfy | Communication | packet ids `msgId@sender`, invocations, packets |
| bank_operations.dfy | BankOperations | `Account`, the three logged `Operation` kinds |
| cache_manager.dfy | Cache | `CacheManager` |
| data_access.dfy | Data | `DataAccess`, its tables and `getOperationsAfter` |
| bank_impl.dfy | Bank | `BankImpl`, the recovery replay |
| replica_server.dfy | Replica | `Server` |
| bank_stub.dfy | Client | `BankStub` |

Inputs the model takes as parameters:

- The wall clock is a `now: nat` parameter. It is read once per delivered message or
  call.
- Group sends are appended to an `outbox` sequence. Delivered messages are parameters.
- A replica's `DataAccess` is handed to its constructor already built over the tables
  found on disk.

Where the Java code itself goes wrong:

- `Data.RefreshAsWrittenReusesIds` and `Data.RefreshAsWrittenDropsNextLog` show that the
  counter refresh reuses ids (see Findings).
- `Cache.WrappedStampEvictsNewer` shows that the wrapping cache stamp evicts newer
  entries (see Findings).
- `Cache.StaleEntryBreaksBound` shows that re-adding an id can push the cache past its
  capacity.
- `Bank.TransferOverdraws` shows that a transfer never checks the origin's funds.
- `Bank.UnknownAccountBalanceInherited` shows that a movement on a missing account leaks
  a cached balance into the next created account.
- `Bank.SecondRecoveryTakesOldest` shows that a replica recovering from a peer that
  itself recovered can end with an older balance: the first recovery logs the replayed
  operations newest first, so the second one replays them oldest first.
- `Replica.NoRecoveryTimeout` shows that recovery waits forever without a peer answer.

## Model

| member | source | states |
|---|---|---|
| Communication.NatToString | src/main/java/server/Server.java:275-277 | the decimal rendering of the counter is non-empty and all digits |
| Communication.ParseNatToString | src/main/java/server/Server.java:275-277 | reading the rendered counter back gives the counter (round trip) |
| Communication.PacketId | src/main/java/client/BankStub.java:121-123 | the id `msgId + "@" + sender` splits back into exactly that counter and sender |
| Communication.PacketIdInjective | src/main/java/client/BankStub.java:121-123 | two packet ids are equal iff their counters and senders are equal |
| BankOperations.FirstMentionIsFirst | src/main/java/bank/BankImpl.java:52-60 | the first mention is the entry at the least index touching the account; no earlier entry touches it |
| BankOperations.FirstMentionAppend | src/main/java/bank/BankImpl.java:52-60 | appending an operation keeps the first mention of an already mentioned account; otherwise the new operation is the first mention |
| BankOperations.MentionedAppend | src/main/java/bank/BankImpl.java:52-60 | an account is mentioned by `ops + [op]` iff ops or op mentions it |
| BankOperations.FirstOfReverseIsLast | src/main/java/data/DataAccess.java:419 | read newest first, the first operation touching an account is the last one logged for it |
| Cache.MinIndexIsMin | src/main/java/data/CacheManager.java:78-81 | the polled position holds a smallest timestamp, and no earlier entry has a timestamp that small |
| Cache.FullHasQueue | src/main/java/data/CacheManager.java:42-43 | a full well-formed cache has a non-empty queue, so poll never returns null |
| Cache.AddedWellFormed | src/main/java/data/CacheManager.java:41-50 | add keeps every mapped entry under its own id and in the queue, and keeps the capacity |
| Cache.GetAfterAdd | src/main/java/data/CacheManager.java:32-50 | after add(o), get(o.id) returns o |
| Cache.AddKeepsOthers | src/main/java/data/CacheManager.java:41-50 | add maps no new id other than o.id and changes no other id's entry |
| Cache.MinIndexHead | src/main/java/data/CacheManager.java:78-81 | a queue whose head is strictly oldest is polled at its head |
| Cache.AddPollsHead | src/main/java/data/CacheManager.java:42-49 | at capacity with the head polled, add drops the head and its id, then maps and enqueues o |
| Cache.AddBelowCapacity | src/main/java/data/CacheManager.java:41-50 | below capacity add evicts nothing: map gains o.id, queue gains o's entry at the end |
| Cache.AddAtCapacity | src/main/java/data/CacheManager.java:42-49 | at capacity add removes a smallest-timestamp queue entry and that entry's id, then maps and enqueues o |
| Cache.AddAllWellFormed | src/main/java/data/CacheManager.java:41-50 | any run of adds keeps the cache well formed at the same capacity |
| Cache.SizeBound | src/main/java/data/CacheManager.java:14-19 | while the added ids are distinct and new, the map never exceeds maxSize and the queue matches it one to one |
| Cache.AddAllKeys | src/main/java/data/CacheManager.java:41-50 | an id neither cached nor added is not cached after a run of adds |
| Cache.StaleEntryBreaksBound | src/main/java/data/CacheManager.java:42-49 | re-adding an id leaves a stale queue entry; with capacity 2, adds of a, a, b, d, e leave 3 mapped entries |
| Cache.FillEmpty | src/main/java/data/CacheManager.java:41-50 | filling an empty cache up to capacity with distinct ids keeps them all, queued in insertion order |
| Cache.OldestEvicted | src/main/java/data/CacheManager.java:14-19 | with increasing stamps, maxSize + 1 distinct adds to an empty cache evict exactly the first id |
| Cache.TwentyOneAddsEvictFirst | src/test/java/data/CacheManagerTest.java:21-33 | capacity 20, ids 1..21 added at increasing times: get(1) is null |
| Cache.WrappedStampEvictsNewer | src/main/java/data/CacheManager.java:67 | with stamps `millis % 1000`, capacity 2, adds at 999, 1000, 1001 ms evict the entry added at 1000 and keep the one added at 999 |
| Cache.CacheManager.constructor | src/main/java/data/CacheManager.java:20-24 | an empty map and queue with the given capacity |
| Cache.CacheManager.Get | src/main/java/data/CacheManager.java:32-35 | returns `Lookup` of the state: Some iff the id is mapped, and on a well-formed cache the object returned has that id; no state change |
| Cache.CacheManager.Add | src/main/java/data/CacheManager.java:41-50 | the new state is `AddedAt(old state, o, Stamp(now))` and the cache stays well formed |
| Data.MovementRow | src/main/java/data/DataAccess.java:113-125 | the inserted movement row reads back as the same movement, with the given id and time |
| Data.TransferRow | src/main/java/data/DataAccess.java:142-156 | the inserted transfer row reads back as the same transfer, with the given id and time |
| Data.CreateRow | src/main/java/data/DataAccess.java:175-182 | the inserted creation row reads back as the creation of that account |
| Data.MaxId | src/main/java/data/DataAccess.java:354-356 | the last id under key order is a member of the ids and at least every id |
| Data.InsertRowKeepsTables | src/main/java/data/DataAccess.java:76-88 | an OPERATIONS insert keeps distinct OP_IDs, satisfied foreign keys and decodable rows |
| Data.InsertAccountKeepsTables | src/main/java/data/DataAccess.java:69-73 | an ACCOUNTS insert keeps ACCOUNT_IDs distinct and in step with the balances |
| Data.UpdateAccountKeepsTables | src/main/java/data/DataAccess.java:219 | an UPDATE keeps the set of accounts, so every foreign key still holds |
| Data.CacheAddKeepsTables | src/main/java/data/DataAccess.java:220 | caching an account keeps the tables consistent |
| Data.MovementKeepsTables | src/main/java/data/DataAccess.java:109-135 | makeMovement keeps the tables consistent, in both modes |
| Data.TransferKeepsTables | src/main/java/data/DataAccess.java:137-169 | makeTransfer keeps the tables consistent, in both modes |
| Data.LogNewAccountKeepsTables | src/main/java/data/DataAccess.java:171-189 | logNewAccount keeps the tables consistent |
| Data.NewAccountKeepsTables | src/main/java/data/DataAccess.java:191-216 | makeNewAccount keeps the tables consistent, in both modes |
| Data.UpdateKeepsTables | src/main/java/data/DataAccess.java:218-221 | updateBalance keeps the tables consistent |
| Data.NormalWritesStampCounter | src/main/java/data/DataAccess.java:109-189 | in normal mode each operation write takes currentOperationId as its id and advances the counter by exactly one |
| Data.RecoveryWritesKeepCounters | src/main/java/data/DataAccess.java:109-169 | in recovery makeMovement/makeTransfer use the caller's id, only insert the row, and write no balance, counter or cache |
| Data.InsertRowEffect | src/main/java/data/DataAccess.java:126-130 | an insert appends exactly its row when the keys allow, and otherwise leaves the state unchanged (exception caught) |
| Data.MovementWritesBalance | src/main/java/data/DataAccess.java:109-135 | normal makeMovement: balance reads back as final, stored balance updated only if the account exists, row appended or rejected |
| Data.TransferWritesBalances | src/main/java/data/DataAccess.java:137-169 | normal makeTransfer on stored accounts: both balances stored, origin first, destination reads back final; row appended or rejected |
| Data.NewAccountNormal | src/main/java/data/DataAccess.java:191-216 | normal makeNewAccount: id is currentAccountId; both counters advance; balance 0 stored unless id taken; one creation logged; cache gets the arguments |
| Data.NewAccountRecovery | src/main/java/data/DataAccess.java:191-216 | recovery makeNewAccount: given id and balance stored unless taken; nothing logged; counters unchanged |
| Data.BalanceAfterUpdate | src/main/java/data/DataAccess.java:218-240 | after updateBalance(id, b), getAccountBalance(id) is b and hasAccount(id) holds |
| Data.BalanceOfUnknownIsZero | src/main/java/data/DataAccess.java:223-240 | an unknown account reads 0; an uncached stored account reads its stored balance |
| Data.RefreshedIsFresh | src/main/java/data/DataAccess.java:379-385 | the corrected refresh keeps the tables and makes both counters exceed every id in use |
| Data.CreateAllocatesFresh | src/main/java/data/DataAccess.java:191-216 | with fresh counters, a normal create stores an unused id with balance 0, logs exactly one creation, and keeps the counters fresh |
| Data.MovementKeepsFresh | src/main/java/data/DataAccess.java:109-135 | normal movements keep the counters fresh |
| Data.TransferKeepsFresh | src/main/java/data/DataAccess.java:137-169 | normal transfers keep the counters fresh |
| Data.RefreshAsWrittenReusesIds | src/main/java/data/DataAccess.java:347-361 | with the refresh as written, the next create returns an existing account's id, stores nothing, and (with a non-empty log) logs nothing |
| Data.RefreshAsWrittenDropsNextLog | src/main/java/data/DataAccess.java:363-385 | with the refresh as written, the next movement's log row collides on OP_ID and is lost |
| Data.AtLeastMembers | src/main/java/data/DataAccess.java:419 | the WHERE clause keeps exactly the rows with OP_ID >= n |
| Data.InsertByTimePermutes | src/main/java/data/DataAccess.java:419 | inserting one row by time adds exactly that row |
| Data.InsertByTimeSorted | src/main/java/data/DataAccess.java:419 | inserting by time keeps a newest-first sequence newest first |
| Data.NewestFirstPermutes | src/main/java/data/DataAccess.java:419 | ORDER BY TIMESTAMP DESC is a permutation of the selected rows |
| Data.NewestFirstSorted | src/main/java/data/DataAccess.java:419 | ORDER BY TIMESTAMP DESC yields non-increasing timestamps |
| Data.InsertKeepsOldestFirst | src/main/java/data/DataAccess.java:125 | an insert stamped no earlier than the logged rows keeps the table oldest first |
| Data.AtLeastKeepsOrder | src/main/java/data/DataAccess.java:419 | the filter keeps table order |
| Data.NewestFirstOfOldestFirst | src/main/java/data/DataAccess.java:419 | on a table written oldest first, the ordered result set is the table reversed |
| Data.DecodeAllAppend | src/main/java/data/DataAccess.java:421-438 | decoding rows one after another decodes them one after another |
| Data.DecodeAllReverse | src/main/java/data/DataAccess.java:421-438 | decoding reversed rows gives the decoded operations reversed |
| Data.DecodeAllKeepsCount | src/main/java/data/DataAccess.java:421-438 | when every row has a known type, no row is skipped |
| Data.DecodeAllMembers | src/main/java/data/DataAccess.java:421-438 | an operation is in the list iff some row decodes to it |
| Data.OperationsAfterExactly | src/main/java/data/DataAccess.java:413-443 | getOperationsAfter(n) holds exactly the operations of rows with id >= n, one per selected row on consistent tables |
| Data.SelectedRows | src/main/java/data/DataAccess.java:418-419 | the ordered result set holds exactly the rows with id >= n, each once |
| Data.OperationsAfterOfOldestFirst | src/main/java/data/DataAccess.java:413-443 | on a table written oldest first, the answer is the log from id n on, read backwards |
| Data.DataAccess.constructor | src/main/java/data/DataAccess.java:21-51 | a 1024-entry empty cache and both counters set by the corrected refresh; the tables stay consistent and, with that refresh, the counters are fresh |
| Data.DataAccess.Insert | src/main/java/data/DataAccess.java:113-130 | one OPERATIONS insert, obeying the keys |
| Data.DataAccess.InsertAccountRow | src/main/java/data/DataAccess.java:195-209 | one ACCOUNTS insert, obeying the primary key |
| Data.DataAccess.UpdateBalance | src/main/java/data/DataAccess.java:218-221 | the UPDATE, then the cache add; the state is `AfterUpdateBalance` |
| Data.DataAccess.MakeMovement | src/main/java/data/DataAccess.java:109-135 | new state and returned id are `AfterMovement` of the old state |
| Data.DataAccess.MakeTransfer | src/main/java/data/DataAccess.java:137-169 | new state and returned id are `AfterTransfer` of the old state |
| Data.DataAccess.UpdateBalances | src/main/java/data/DataAccess.java:163-166 | origin's updateBalance, then the destination's |
| Data.DataAccess.LogNewAccount | src/main/java/data/DataAccess.java:171-189 | new state and returned id are `AfterLogNewAccount` of the old state |
| Data.DataAccess.MakeNewAccount | src/main/java/data/DataAccess.java:191-216 | new state and returned id are `AfterNewAccount` of the old state |
| Data.DataAccess.GetAccountBalance | src/main/java/data/DataAccess.java:223-240 | the cached balance, else the stored one, else 0 |
| Data.DataAccess.HasAccountId | src/main/java/data/DataAccess.java:387-400 | true iff the account is cached or stored |
| Data.DataAccess.GetOperationsAfter | src/main/java/data/DataAccess.java:413-443 | the loop builds `OperationsAfter(state, n)`: exactly the operations of rows with id >= n |
| Data.DataAccess.CurrentOperationId | src/main/java/data/DataAccess.java:363-377 | 1 for an empty log, else the largest logged id, which is a logged id |
| Data.DataAccess.RefreshCurrentAccountId | src/main/java/data/DataAccess.java:379-381 | only the account counter changes, to the corrected next free id |
| Data.DataAccess.RefreshCurrentOperationId | src/main/java/data/DataAccess.java:383-385 | only the operation counter changes, to the corrected next free id |
| Bank.MovementGuard | src/main/java/bank/BankImpl.java:118-127 | refused iff a withdrawal exceeds the balance read; refusal changes nothing; acceptance moves the balance by the amount and spends one op id |
| Bank.MovementLogsOnce | src/main/java/bank/BankImpl.java:118-127 | on consistent tables, an accepted movement on a stored account logs exactly one row and stores the new balance |
| Bank.TransferGuard | src/main/java/bank/BankImpl.java:129-140 | refused iff the amount is negative; refusal changes nothing; acceptance credits the destination and spends one op id |
| Bank.TransferLogsOnce | src/main/java/bank/BankImpl.java:129-140 | on consistent tables, an accepted transfer logs exactly one row and stores both new balances |
| Bank.TransferredAccepted | src/main/java/bank/BankImpl.java:129-140 | a non-negative transfer is accepted and is makeTransfer of the balances read |
| Bank.TransferOverdraws | src/main/java/bank/BankImpl.java:134 | a transfer larger than the origin's balance is accepted and stores a negative balance |
| Bank.SelfTransferCredits | src/main/java/bank/BankImpl.java:129-140 | a self-transfer is accepted and credits the account with the amount |
| Bank.CreateAllocates | src/main/java/bank/BankImpl.java:108-111 | create returns an unused id, stores it with balance 0, logs its creation, keeps the tables consistent; the cache gets account 0 |
| Bank.UnknownAccountBalanceInherited | src/main/java/bank/BankImpl.java:118-127 | a movement on the next free id is accepted without a log row; the account create then hands out reads back that amount although 0 is stored |
| Bank.CacheAddUntouched | src/main/java/data/DataAccess.java:220 | caching another account leaves account a's store and cache entry alone, apart from eviction |
| Bank.RestoreUntouched | src/main/java/bank/BankImpl.java:75-79 | restoring another account leaves a alone |
| Bank.RestoreSets | src/main/java/bank/BankImpl.java:75-79 | restoring an account stores and caches the restored balance |
| Bank.RecoverUntouched | src/main/java/bank/BankImpl.java:66-106 | a replay step for an operation not mentioning a, or with a already recovered, leaves a alone |
| Bank.TransferFirstSighting | src/main/java/bank/BankImpl.java:85-102 | a first sighting in a transfer restores the balance recorded for that side (the destination's for a self-transfer) |
| Bank.FirstSighting | src/main/java/bank/BankImpl.java:66-106 | a first sighting restores the recorded balance; a creation keeps an already stored balance |
| Bank.ReplayRecovers | src/main/java/bank/BankImpl.java:47-64 | the recovered set is exactly the accounts the list mentions |
| Bank.ReplayBeforeSighting | src/main/java/bank/BankImpl.java:47-64 | the replay leaves an unmentioned account alone |
| Bank.ReplayFirstSighting | src/main/java/bank/BankImpl.java:47-64 | after the replay each mentioned account holds the balance of its first mention |
| Bank.RecoveredBalance | src/main/java/bank/BankImpl.java:47-64 | after doRecovery, a mentioned account reads back and stores its first mention's balance |
| Bank.RecoveryTakesLatest | src/main/java/data/DataAccess.java:413-443 | when the peer's rows have non-decreasing timestamps, replaying its answer gives each account the balance of its last row in the peer's log |
| Bank.SecondRecoveryTakesOldest | src/main/java/bank/BankImpl.java:47-64 | a replica that recovered logs the replayed operations newest first; a replica recovering from it ends with the older balance 10 where the first one holds the latest balance 20 |
| Bank.ReplayCounters | src/main/java/bank/BankImpl.java:47-64 | the replay keeps the account counter and spends one op id per creation |
| Bank.RecoverCounters | src/main/java/bank/BankImpl.java:66-106 | one replay step spends one op id for a creation and none otherwise |
| Bank.RecoverLogs | src/main/java/bank/BankImpl.java:66-106 | a replayed movement/transfer is logged under its historical id, a creation under the next id; each appends its row or nothing |
| Bank.RecoverKeepsTables | src/main/java/bank/BankImpl.java:66-106 | a replay step keeps the tables consistent |
| Bank.RestoreKeepsTables | src/main/java/bank/BankImpl.java:75-79 | a restore keeps the tables consistent |
| Bank.ReplayKeepsTables | src/main/java/bank/BankImpl.java:52-60 | the whole replay keeps the tables consistent |
| Bank.RecoveredIsFresh | src/main/java/bank/BankImpl.java:62-63 | after doRecovery with the corrected refresh, the tables are consistent and both counters fresh |
| Bank.BankImpl.constructor | src/main/java/bank/BankImpl.java:42-45 | the bank works on the given DataAccess |
| Bank.BankImpl.Recovering | src/main/java/bank/BankImpl.java:36-39 | the database ends in `Recovered(old state, operations)`: the replay, then the corrected refresh |
| Bank.BankImpl.DoRecovery | src/main/java/bank/BankImpl.java:47-64 | the loop replays the list in order, then sets both counters by the corrected refresh |
| Bank.BankImpl.RecoverCreateAccountOperation | src/main/java/bank/BankImpl.java:66-72 | database and recovered set follow `Recover` for a creation |
| Bank.BankImpl.RestoreAccount | src/main/java/bank/BankImpl.java:75-79 | insert the account with the balance when unknown, else update it |
| Bank.BankImpl.RecoverMovementOperation | src/main/java/bank/BankImpl.java:74-83 | database and recovered set follow `Recover` for a movement |
| Bank.BankImpl.RecoverTransferOperation | src/main/java/bank/BankImpl.java:85-106 | database and recovered set follow `Recover` for a transfer |
| Bank.BankImpl.Create | src/main/java/bank/BankImpl.java:108-111 | new state and returned id are `Created` of the old state |
| Bank.BankImpl.Balance | src/main/java/bank/BankImpl.java:113-116 | the balance read; 0 for an unknown account |
| Bank.BankImpl.Movement | src/main/java/bank/BankImpl.java:118-127 | new state and answer are `Moved` of the old state |
| Bank.BankImpl.Transfer | src/main/java/bank/BankImpl.java:129-140 | new state and answer are `Transferred` of the old state |
| Replica.ServedAllAnswersInOrder | src/main/java/server/Server.java:116-120 | serving a queue answers each queued invocation once, in order, to its sender under its id, and sends nothing else |
| Replica.StateAnswer | src/main/java/server/Server.java:201-205 | a STATE request changes nothing and is answered with exactly the operations with id >= the watermark |
| Replica.AnswerKeepsTables | src/main/java/server/Server.java:188-217 | every command keeps the tables consistent |
| Replica.ServedAllKeepsTables | src/main/java/server/Server.java:116-120 | serving a queue keeps the tables consistent |
| Replica.DeliveredKeepsTables | src/main/java/server/Server.java:279-291 | whatever is delivered, the tables stay consistent |
| Replica.RecoveryCompletes | src/main/java/server/Server.java:154-180 | a peer's answer under the current id ends recovery: msgId advances once, queue emptied, queued invocations answered in order |
| Replica.RecoveringStep | src/main/java/server/Server.java:154-180 | own echo stops discarding; other packets are dropped while discarding, else queued |
| Replica.NoRecoveryTimeout | src/main/java/server/Server.java:154-180 | without a peer answer, a recovering replica stays recovering, keeps msgId, accounts and outbox |
| Replica.RecoveringQueues | src/main/java/server/Server.java:174-179 | before the echo deliveries are dropped, after it they are queued in arrival order |
| Replica.ServingRepliesOnce | src/main/java/server/Server.java:223-236 | a serving replica sends exactly one reply per invocation to its sender under the request id, and ignores other packets |
| Replica.RecoveryRun | src/main/java/server/Server.java:113-180 | request, echo, queued traffic, answer: recovery ends with an empty queue, msgId + 1, late invocations answered in order |
| Replica.Server.constructor | src/main/java/server/Server.java:59-76 | msgId 0, discarding iff recovering, a bank iff not recovering |
| Replica.Server.SendRequest | src/main/java/server/Server.java:256-263 | multicasts the invocation under the current id without advancing msgId |
| Replica.Server.RequestState | src/main/java/server/Server.java:131-135 | a recovering replica multicasts STATE with its current operation id |
| Replica.Server.HandleInvocation | src/main/java/server/Server.java:188-217 | new state and reply are `Answer` of the old state |
| Replica.Server.Handle | src/main/java/server/Server.java:223-236 | new state and outbox are `Served`; mode, msgId and queue unchanged |
| Replica.Server.ServeQueue | src/main/java/server/Server.java:116-120 | the loop serves the whole queue in order and leaves it empty |
| Replica.Server.Recover | src/main/java/server/Server.java:113-124 | the view becomes `Recovery(old view, transactions)` |
| Replica.Server.HandleRecovery | src/main/java/server/Server.java:154-180 | the view becomes `OnRecovery(old view, m)` |
| Replica.Server.OnMessage | src/main/java/server/Server.java:279-291 | the view becomes `Delivered(old view, m)` |
| Client.OnlyCurrentReplyAccepted | src/main/java/client/BankStub.java:87 | answers to earlier requests, to other stubs, and invocations are ignored; a reply with the current id is taken |
| Client.SentIdsDistinct | src/main/java/client/BankStub.java:104-107 | no two requests of a stub share an id, and none uses id 0 |
| Client.AnswerIsReply | src/main/java/server/Server.java:233-234 | a replica's answer is never an invocation |
| Client.ServedReplyAccepted | src/main/java/server/Server.java:231-235 | a serving replica's answer to the request in flight is sent to the stub and accepted by it |
| Client.LastAccepted | src/main/java/client/BankStub.java:76-96 | the reply kept is the previous one or the content of some accepted packet |
| Client.BankStub.constructor | src/main/java/client/BankStub.java:33-37 | msgId 0, no reply, nothing sent |
| Client.BankStub.SendRequest | src/main/java/client/BankStub.java:104-113 | msgId advances, then the invocation is multicast under the new id |
| Client.BankStub.OnMessage | src/main/java/client/BankStub.java:76-96 | the reply becomes the packet's content iff it answers the request in flight |
| Client.BankStub.Invoke | src/main/java/client/BankStub.java:133-148 | one request sent; the result is the last accepted reply among the deliveries, else the previous reply |
| Client.BankStub.Transfer | src/main/java/client/BankStub.java:70-74 | the stub's transfer answers false |

## Left out

- Networking, serialization and I/O are not modelled:
  - the group-communication library (joining, sessions, message objects) and Java
    serialization of packets are left out; a packet is a value and a send is an
    `outbox` entry;
  - console printing is left out.
- SQL plumbing is not modelled: connection setup, database file creation, dropping and
  creating tables, populating OPERATION_TYPE, and the report builders
  (`getOperationLogs`, `getAccountsInfo`, `getLastAccountOperations`,
  `getOperationTypes`). The tables' declared keys are modelled.
- `Data.MaxId`: the counter refresh takes the id of the last row of an unordered SELECT.
  The model assumes rows come back in primary-key order, so that row holds the largest
  id.
- `Data.NewestFirst`: SQL leaves the order of equal timestamps open; the model puts the
  later-inserted row first. `Cache.MinIndex` breaks timestamp ties by the earliest queue
  position, whereas a real `PriorityQueue` may pick any of the tied entries.
- Time is a parameter: `now` stands for one clock read per call. The several
  `currentTimeMillis` reads inside one Java call are not distinguished.
- Integer overflow is not modelled: ids, balances and amounts are unbounded integers,
  not 32-bit Java ints. Account numbers are integers, not the decimal strings the
  source converts back and forth.
- BankImpl's no-argument constructor and its deprecated copy constructor are left out;
  the replica uses neither.
- The `latest` command names a bank method that BankImpl does not have. It is modelled together with any unknown command as
  `OtherCmd`, answered with null.
- `Client.BankStub.Invoke`: the blocking wait on a condition variable is modelled as a
  given sequence of deliveries handled before the reply is read; lock ordering and
  spurious wake-ups are not modelled.
- `Client.BankStub.Transfer` answers false and sends nothing, as the source does. The
  stub's `create(amount)` passes an argument the server ignores, so the model's
  `CreateCmd` carries none.
- `Bank.BankImpl.Create` returns the numeric id; the source turns it into a decimal
  string.
- `Replica.Server.HandleRecovery`: a packet under the replica's own id that is neither
  an invocation nor an operation list makes the source's cast throw after msgId has
  advanced. The model advances msgId and stops there.
- `Replica.Server.constructor` receives its DataAccess already opened. In the source the
  server calls `initEDBConnection` with one argument, which does not match the
  three-parameter declaration. It also calls `getCurrentOperationId`, which is private
  to DataAccess. The model takes the evident reading of both.
- `Cache.CacheManager.constructor` requires a capacity of at least 1. With capacity 0,
  the source's first add would poll an empty queue and dereference null.
- `Data.DataAccess.RefreshCurrentAccountId` and
  `Data.DataAccess.RefreshCurrentOperationId` use the corrected next free id (see
  Findings). The as-written value is modelled by `Data.LastIdOr1` and
  `Data.DataAccess.CurrentOperationId`.
- `Data.DataAccess.constructor` runs the corrected refresh, so it promises fresh
  counters. The source's `initEDBConnection` (DataAccess.java:49-50) leaves both
  counters at the last id in use.
- `Bank.BankImpl.DoRecovery` runs the corrected refresh after the replay. The source's
  `doRecovery` (BankImpl.java:62-63) leaves both counters at the last id in use.
- `Bank.BankImpl.Recovering` ends in `Bank.Recovered`, which applies the corrected
  refresh. So do `Replica.Server.Recover`, `Replica.RecoveryCompletes` and
  `Replica.RecoveryRun`, which recover through it.
- `Bank.RecoveredIsFresh` holds only with the corrected refresh. With the source's
  refresh, the next create and the next logged operation reuse ids in use, as
  `Data.RefreshAsWrittenReusesIds` and `Data.RefreshAsWrittenDropsNextLog` show.
- `Cache.CacheManager.Add` stamps entries with `Stamp(now)`, the unwrapped clock (see
  Findings). The wrapping stamp the source takes is modelled by `Cache.MillisStamp`.

## Findings

| source | as written | input that shows it | evidently intended | confidence | as-written member | corrected member |
|---|---|---|---|---|---|---|
| src/main/java/data/DataAccess.java:347-385 | refresh sets each counter to the id of the last row (or 1), an id already in use | a table holding account 1 and a log holding operation 5: the next create returns id 1 and stores nothing; the next logged operation takes OP_ID 5 and is rejected | counter = one past the largest id in use (1 for an empty table) | not executed | Data.RefreshAsWrittenReusesIds | Data.RefreshedIsFresh |
| src/main/java/data/CacheManager.java:67 | entries are stamped `currentTimeMillis() % 1000`, which wraps every second | capacity 2; ids 1, 2, 3 added at 999, 1000 and 1001 ms: id 2 (stamp 0) is evicted and id 1 (stamp 999) kept | stamps that grow with time, so the oldest entry is evicted | not executed | Cache.WrappedStampEvictsNewer | Cache.OldestEvicted |
