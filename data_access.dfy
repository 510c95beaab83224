/**
 * The data layer: the ACCOUNTS and OPERATIONS tables, the two id counters
 * and the balance cache, with the SQL stripped away. Each insert obeys the
 * tables' declared keys: a duplicate primary key or a dangling foreign key
 * makes the statement fail, and the source catches and prints that failure,
 * so the table stays as it was. An UPDATE of a missing account changes no
 * row. The clock is read once per call and passed in as `now`.
 */
module Data {
  import opened Wrappers
  import opened BankOperations
  import Cache

  /** OP_TYPE codes: the OP_TYPES enum's ordinal plus one. */
  const MovementType: int := 1
  const TransferType: int := 2
  const CreateType: int := 3

  /** Capacity of the balance cache the connection builds. */
  const CacheCapacity: nat := 1024

  /**
   * One OPERATIONS row. Columns an insert leaves out are SQL NULL (None):
   * a creation has no amount, only a transfer has a destination.
   */
  datatype Row = Row(opId: int, opType: int, amount: Option<int>, fromAccount: int,
                     toAccount: Option<int>, fromBalance: int, toBalance: Option<int>,
                     timestamp: nat)

  /** ResultSet.getInt reads SQL NULL as 0. */
  function OrZero(v: Option<int>): int
  {
    if v.Some? then v.value else 0
  }

  /**
   * The list entry getOperationsAfter builds from a row; a row of another
   * type is skipped by its switch, and a transfer row always has a destination.
   */
  function DecodeRow(r: Row): Option<Operation>
  {
    if r.opType == MovementType then
      Some(Movement(r.opId, OrZero(r.amount), r.fromBalance, r.fromAccount))
    else if r.opType == TransferType && r.toAccount.Some? then
      Some(Transfer(r.opId, OrZero(r.amount), r.fromAccount, r.toAccount.value, r.fromBalance, OrZero(r.toBalance)))
    else if r.opType == CreateType then
      Some(Create(r.opId, r.fromAccount))
    else
      None
  }

  /** The row makeMovement inserts; it reads back as the same movement. */
  function MovementRow(opId: int, amount: int, account: int, finalBalance: int, now: nat): (r: Row)
    ensures DecodeRow(r) == Some(Movement(opId, amount, finalBalance, account))
    ensures r.opId == opId && r.timestamp == now
  {
    Row(opId, MovementType, Some(amount), account, None, finalBalance, None, now)
  }

  /** The row makeTransfer inserts; it reads back as the same transfer. */
  function TransferRow(opId: int, amount: int, from: int, to: int, finalFrom: int, finalTo: int, now: nat): (r: Row)
    ensures DecodeRow(r) == Some(Transfer(opId, amount, from, to, finalFrom, finalTo))
    ensures r.opId == opId && r.timestamp == now
  {
    Row(opId, TransferType, Some(amount), from, Some(to), finalFrom, Some(finalTo), now)
  }

  /** The row logNewAccount inserts; it reads back as the creation of that account. */
  function CreateRow(opId: int, account: int, balance: int, now: nat): (r: Row)
    ensures DecodeRow(r) == Some(Create(opId, account))
    ensures r.opId == opId && r.timestamp == now
  {
    Row(opId, CreateType, None, account, None, balance, None, now)
  }

  /**
   * The connection's state as a value: the ACCOUNTS table (its ACCOUNT_ID
   * column in insertion order, and the balance per id), the OPERATIONS
   * table in insertion order, the two counters, and the cache's state.
   */
  datatype Db = Db(accountIds: seq<int>, balances: map<int, int>, rows: seq<Row>,
                   accountCounter: int, operationCounter: int, cache: Cache.CacheState)

  predicate HasOpId(rows: seq<Row>, id: int)
  {
    exists i :: 0 <= i < |rows| && rows[i].opId == id
  }

  /** The foreign keys hold: a known OP_TYPE, and the accounts a row names exist. */
  predicate RowFits(r: Row, balances: map<int, int>)
  {
    && MovementType <= r.opType <= CreateType
    && r.fromAccount in balances
    && (r.toAccount.Some? ==> r.toAccount.value in balances)
  }

  /** The statement succeeds: a fresh OP_ID and the foreign keys hold. */
  predicate RowAccepted(db: Db, r: Row)
  {
    !HasOpId(db.rows, r.opId) && RowFits(r, db.balances)
  }

  /** INSERT into OPERATIONS; a rejected statement leaves the table unchanged. */
  function InsertRow(db: Db, r: Row): Db
  {
    if RowAccepted(db, r) then db.(rows := db.rows + [r]) else db
  }

  /** INSERT into ACCOUNTS; a duplicate ACCOUNT_ID leaves the table unchanged. */
  function InsertAccount(db: Db, id: int, balance: int): Db
  {
    if id in db.balances then db
    else db.(accountIds := db.accountIds + [id], balances := db.balances[id := balance])
  }

  /** UPDATE ACCOUNTS SET BALANCE; no row matches a missing id. */
  function UpdateAccount(db: Db, id: int, balance: int): Db
  {
    if id in db.balances then db.(balances := db.balances[id := balance]) else db
  }

  function CacheAdd(db: Db, a: Account, now: nat): Db
  {
    db.(cache := Cache.AddedAt(db.cache, a, Cache.Stamp(now)))
  }

  /** updateBalance: write the store, then cache the new figure. */
  function AfterUpdateBalance(db: Db, id: int, finalAmount: int, now: nat): Db
  {
    CacheAdd(UpdateAccount(db, id, finalAmount), Account(id, finalAmount), now)
  }

  /** The id an operation write stamps, and the counter it leaves. */
  function StampedOpId(db: Db, opId: int, recovery: bool): int
  {
    if recovery then opId else db.operationCounter
  }

  function AdvanceOpCounter(db: Db, recovery: bool): Db
  {
    if recovery then db else db.(operationCounter := db.operationCounter + 1)
  }

  /** makeMovement: log the movement, and outside recovery write the final balance. */
  function AfterMovement(db: Db, opId: int, amount: int, account: int, finalBalance: int, recovery: bool, now: nat): (Db, int)
  {
    var id := StampedOpId(db, opId, recovery);
    var logged := InsertRow(AdvanceOpCounter(db, recovery), MovementRow(id, amount, account, finalBalance, now));
    (if recovery then logged else AfterUpdateBalance(logged, account, finalBalance, now), id)
  }

  /** makeTransfer: log the transfer, and outside recovery write both final balances. */
  function AfterTransfer(db: Db, opId: int, amount: int, from: int, to: int, finalFrom: int, finalTo: int,
                         recovery: bool, now: nat): (Db, int)
  {
    var id := StampedOpId(db, opId, recovery);
    var logged := InsertRow(AdvanceOpCounter(db, recovery), TransferRow(id, amount, from, to, finalFrom, finalTo, now));
    (if recovery then logged
     else AfterUpdateBalance(AfterUpdateBalance(logged, from, finalFrom, now), to, finalTo, now), id)
  }

  /** logNewAccount: log a creation under the next operation id. */
  function AfterLogNewAccount(db: Db, account: int, balance: int, now: nat): (Db, int)
  {
    var id := db.operationCounter;
    (InsertRow(db.(operationCounter := id + 1), CreateRow(id, account, balance, now)), id)
  }

  /**
   * makeNewAccount: outside recovery the row takes the next account id and
   * balance 0 and a creation is logged; in recovery it takes the given id and
   * balance. Either way the cache receives the ARGUMENTS (accountNmr, balance).
   */
  function AfterNewAccount(db: Db, accountNmr: int, balance: int, recovery: bool, now: nat): (Db, int)
  {
    var id := if recovery then accountNmr else db.accountCounter;
    var counted := if recovery then db else db.(accountCounter := db.accountCounter + 1);
    var stored := InsertAccount(counted, id, if recovery then balance else 0);
    var cached := CacheAdd(stored, Account(accountNmr, balance), now);
    (if recovery then cached else AfterLogNewAccount(cached, id, 0, now).0, id)
  }

  /** getAccountBalance: the cached figure, else the stored one, else 0. */
  function AccountBalance(db: Db, id: int): int
  {
    match Cache.Lookup(db.cache, id)
    case Some(a) => a.balance
    case None => if id in db.balances then db.balances[id] else 0
  }

  /** hasAccount: cached or stored. */
  predicate HasAccount(db: Db, id: int)
  {
    Cache.Lookup(db.cache, id).Some? || id in db.balances
  }

  function MaxId(ids: seq<int>): (m: int)
    requires ids != []
    ensures m in ids
    ensures forall i :: 0 <= i < |ids| ==> ids[i] <= m
    decreases |ids|
  {
    if |ids| == 1 then ids[0]
    else
      var rest := MaxId(ids[..|ids| - 1]);
      var last := ids[|ids| - 1];
      if last > rest then last else rest
  }

  function OpIds(rows: seq<Row>): (ids: seq<int>)
    ensures |ids| == |rows|
    ensures forall i :: 0 <= i < |rows| ==> ids[i] == rows[i].opId
  {
    seq(|rows|, i requires 0 <= i < |rows| => rows[i].opId)
  }

  /**
   * getCurrentAccountId / getCurrentOperationId as written: the id of the
   * last row of the table, or 1 for an empty table. The unordered SELECT is
   * taken to return rows in primary-key order, so the last id is the largest.
   */
  function LastIdOr1(ids: seq<int>): int
  {
    if ids == [] then 1 else MaxId(ids)
  }

  /** The counter value the refresh evidently intends: one past the largest id, or 1. */
  function NextFreeId(ids: seq<int>): int
  {
    if ids == [] then 1 else MaxId(ids) + 1
  }

  /** refreshCurrentAccountId followed by refreshCurrentOperationId, as written. */
  function RefreshedAsWritten(db: Db): Db
  {
    db.(accountCounter := LastIdOr1(db.accountIds), operationCounter := LastIdOr1(OpIds(db.rows)))
  }

  /** Both refreshes with the corrected counter value; the rest of the model uses this one. */
  function Refreshed(db: Db): Db
  {
    db.(accountCounter := NextFreeId(db.accountIds), operationCounter := NextFreeId(OpIds(db.rows)))
  }

  /** The WHERE OP_ID >= n filter, keeping table order. */
  function AtLeast(rows: seq<Row>, n: int): seq<Row>
    decreases |rows|
  {
    if rows == [] then []
    else
      var init := AtLeast(rows[..|rows| - 1], n);
      var last := rows[|rows| - 1];
      if last.opId >= n then init + [last] else init
  }

  /** Timestamps never increase along s. */
  predicate NewestFirstOrder(s: seq<Row>)
  {
    forall i, j :: 0 <= i < j < |s| ==> s[i].timestamp >= s[j].timestamp
  }

  /** Place r before the first entry that is not newer than r. */
  function InsertByTime(r: Row, s: seq<Row>): seq<Row>
    decreases |s|
  {
    if s == [] || s[0].timestamp <= r.timestamp then [r] + s
    else [s[0]] + InsertByTime(r, s[1..])
  }

  /**
   * ORDER BY TIMESTAMP DESC. SQL leaves the order of equal timestamps open;
   * the model puts the later-inserted row first.
   */
  function NewestFirst(rows: seq<Row>): seq<Row>
    decreases |rows|
  {
    if rows == [] then []
    else InsertByTime(rows[|rows| - 1], NewestFirst(rows[..|rows| - 1]))
  }

  /** The loop body of getOperationsAfter over a whole result set. */
  function DecodeAll(rows: seq<Row>): seq<Operation>
    decreases |rows|
  {
    if rows == [] then []
    else
      var init := DecodeAll(rows[..|rows| - 1]);
      match DecodeRow(rows[|rows| - 1])
      case Some(op) => init + [op]
      case None => init
  }

  /** getOperationsAfter(n): the operations with id at least n, newest first. */
  function OperationsAfter(db: Db, n: int): seq<Operation>
  {
    DecodeAll(NewestFirst(AtLeast(db.rows, n)))
  }

  /**
   * What the tables' keys and the write paths guarantee: distinct account ids
   * matching the balance map, distinct operation ids, rows that satisfy
   * their foreign keys and read back as operations, and a well-formed cache.
   */
  ghost predicate Tables(db: Db)
  {
    && (forall i, j :: 0 <= i < j < |db.accountIds| ==> db.accountIds[i] != db.accountIds[j])
    && (forall k :: k in db.balances <==> k in db.accountIds)
    && (forall i, j :: 0 <= i < j < |db.rows| ==> db.rows[i].opId != db.rows[j].opId)
    && (forall i :: 0 <= i < |db.rows| ==> RowFits(db.rows[i], db.balances) && DecodeRow(db.rows[i]).Some?)
    && Cache.WellFormed(db.cache)
  }

  lemma InsertRowKeepsTables(db: Db, r: Row)
    requires Tables(db) && DecodeRow(r).Some?
    ensures Tables(InsertRow(db, r))
  {
    if RowAccepted(db, r) {
      var rows := db.rows + [r];
      forall i, j | 0 <= i < j < |rows| ensures rows[i].opId != rows[j].opId {
        if j == |db.rows| {
          assert rows[i] == db.rows[i];
        }
      }
    }
  }

  lemma InsertAccountKeepsTables(db: Db, id: int, balance: int)
    requires Tables(db)
    ensures Tables(InsertAccount(db, id, balance))
  {
    if id !in db.balances {
      var d := InsertAccount(db, id, balance);
      forall i | 0 <= i < |d.rows| ensures RowFits(d.rows[i], d.balances) {
        assert RowFits(db.rows[i], db.balances);
      }
    }
  }

  lemma UpdateAccountKeepsTables(db: Db, id: int, balance: int)
    requires Tables(db)
    ensures Tables(UpdateAccount(db, id, balance))
  {
    var d := UpdateAccount(db, id, balance);
    assert d.balances.Keys == db.balances.Keys;
    forall i | 0 <= i < |d.rows| ensures RowFits(d.rows[i], d.balances) {
      assert RowFits(db.rows[i], db.balances);
    }
  }

  lemma CacheAddKeepsTables(db: Db, a: Account, now: nat)
    requires Tables(db)
    ensures Tables(CacheAdd(db, a, now))
  {
    Cache.AddedWellFormed(db.cache, a, Cache.Stamp(now));
  }

  lemma MovementKeepsTables(db: Db, opId: int, amount: int, account: int, finalBalance: int, recovery: bool, now: nat)
    requires Tables(db)
    ensures Tables(AfterMovement(db, opId, amount, account, finalBalance, recovery, now).0)
  {
    var counted := AdvanceOpCounter(db, recovery);
    var row := MovementRow(StampedOpId(db, opId, recovery), amount, account, finalBalance, now);
    InsertRowKeepsTables(counted, row);
    UpdateKeepsTables(InsertRow(counted, row), account, finalBalance, now);
  }

  lemma TransferKeepsTables(db: Db, opId: int, amount: int, from: int, to: int, finalFrom: int, finalTo: int,
                            recovery: bool, now: nat)
    requires Tables(db)
    ensures Tables(AfterTransfer(db, opId, amount, from, to, finalFrom, finalTo, recovery, now).0)
  {
    var counted := AdvanceOpCounter(db, recovery);
    var row := TransferRow(StampedOpId(db, opId, recovery), amount, from, to, finalFrom, finalTo, now);
    InsertRowKeepsTables(counted, row);
    var logged := InsertRow(counted, row);
    UpdateKeepsTables(logged, from, finalFrom, now);
    UpdateKeepsTables(AfterUpdateBalance(logged, from, finalFrom, now), to, finalTo, now);
  }

  lemma LogNewAccountKeepsTables(db: Db, account: int, balance: int, now: nat)
    requires Tables(db)
    ensures Tables(AfterLogNewAccount(db, account, balance, now).0)
  {
    InsertRowKeepsTables(db.(operationCounter := db.operationCounter + 1), CreateRow(db.operationCounter, account, balance, now));
  }

  lemma NewAccountKeepsTables(db: Db, accountNmr: int, balance: int, recovery: bool, now: nat)
    requires Tables(db)
    ensures Tables(AfterNewAccount(db, accountNmr, balance, recovery, now).0)
  {
    var id := if recovery then accountNmr else db.accountCounter;
    var counted := if recovery then db else db.(accountCounter := db.accountCounter + 1);
    var initial := if recovery then balance else 0;
    InsertAccountKeepsTables(counted, id, initial);
    var stored := InsertAccount(counted, id, initial);
    CacheAddKeepsTables(stored, Account(accountNmr, balance), now);
    LogNewAccountKeepsTables(CacheAdd(stored, Account(accountNmr, balance), now), id, 0, now);
  }

  lemma UpdateKeepsTables(db: Db, id: int, x: int, now: nat)
    requires Tables(db)
    ensures Tables(AfterUpdateBalance(db, id, x, now))
  {
    UpdateAccountKeepsTables(db, id, x);
    CacheAddKeepsTables(UpdateAccount(db, id, x), Account(id, x), now);
  }

  /** In normal mode each operation write stamps currentOperationId and advances it by exactly one. */
  lemma NormalWritesStampCounter(db: Db, opId: int, amount: int, a: int, b: int, x: int, y: int, now: nat)
    ensures var r := AfterMovement(db, opId, amount, a, x, false, now);
            r.1 == db.operationCounter && r.0.operationCounter == db.operationCounter + 1
    ensures var r := AfterTransfer(db, opId, amount, a, b, x, y, false, now);
            r.1 == db.operationCounter && r.0.operationCounter == db.operationCounter + 1
    ensures var r := AfterLogNewAccount(db, a, x, now);
            r.1 == db.operationCounter && r.0.operationCounter == db.operationCounter + 1
  {
  }

  /**
   * In recovery mode makeMovement and makeTransfer stamp the caller's id,
   * leave both counters alone, write no balance and touch no cache entry.
   */
  lemma RecoveryWritesKeepCounters(db: Db, opId: int, amount: int, a: int, b: int, x: int, y: int, now: nat)
    ensures var r := AfterMovement(db, opId, amount, a, x, true, now);
            && r.1 == opId && r.0 == InsertRow(db, MovementRow(opId, amount, a, x, now))
    ensures var r := AfterTransfer(db, opId, amount, a, b, x, y, true, now);
            && r.1 == opId && r.0 == InsertRow(db, TransferRow(opId, amount, a, b, x, y, now))
  {
  }

  /** An insert appends exactly its row when the keys allow it, and otherwise changes nothing. */
  lemma InsertRowEffect(db: Db, r: Row)
    ensures RowAccepted(db, r) ==> InsertRow(db, r) == db.(rows := db.rows + [r])
    ensures !RowAccepted(db, r) ==> InsertRow(db, r) == db
  {
  }

  /** Normal-mode makeMovement logs the movement and writes its final balance to the store and the cache. */
  lemma MovementWritesBalance(db: Db, amount: int, account: int, finalBalance: int, now: nat)
    ensures var r := AfterMovement(db, 0, amount, account, finalBalance, false, now).0;
            && AccountBalance(r, account) == finalBalance
            && r.balances == (if account in db.balances then db.balances[account := finalBalance] else db.balances)
            && r.accountIds == db.accountIds
            && (r.rows == db.rows + [MovementRow(db.operationCounter, amount, account, finalBalance, now)] || r.rows == db.rows)
  {
    var logged := InsertRow(AdvanceOpCounter(db, false), MovementRow(db.operationCounter, amount, account, finalBalance, now));
    BalanceAfterUpdate(logged, account, finalBalance, now);
  }

  /** Normal-mode makeTransfer logs the transfer and writes both final balances, origin first. */
  lemma TransferWritesBalances(db: Db, amount: int, from: int, to: int, finalFrom: int, finalTo: int, now: nat)
    requires from in db.balances && to in db.balances
    ensures var r := AfterTransfer(db, 0, amount, from, to, finalFrom, finalTo, false, now).0;
            && AccountBalance(r, to) == finalTo
            && r.balances == db.balances[from := finalFrom][to := finalTo]
            && (r.rows == db.rows + [TransferRow(db.operationCounter, amount, from, to, finalFrom, finalTo, now)] || r.rows == db.rows)
  {
    var logged := InsertRow(AdvanceOpCounter(db, false), TransferRow(db.operationCounter, amount, from, to, finalFrom, finalTo, now));
    BalanceAfterUpdate(AfterUpdateBalance(logged, from, finalFrom, now), to, finalTo, now);
  }

  /** AfterNewAccount step by step, with the id and the stored balance given as names. */
  lemma NewAccountSteps(db: Db, accountNmr: int, balance: int, recovery: bool, now: nat, id: int, storedBalance: int)
    requires id == (if recovery then accountNmr else db.accountCounter)
    requires storedBalance == (if recovery then balance else 0)
    ensures var counted := if recovery then db else db.(accountCounter := db.accountCounter + 1);
            var cached := CacheAdd(InsertAccount(counted, id, storedBalance), Account(accountNmr, balance), now);
            AfterNewAccount(db, accountNmr, balance, recovery, now)
            == (if recovery then cached else AfterLogNewAccount(cached, id, 0, now).0, id)
  {
  }

  /**
   * Normal-mode makeNewAccount takes currentAccountId and advances it,
   * stores balance 0 under it (unless the id is taken) and logs one
   * creation; the cache receives the arguments, not the new id.
   */
  lemma NewAccountNormal(db: Db, accountNmr: int, balance: int, now: nat)
    ensures var (r, id) := AfterNewAccount(db, accountNmr, balance, false, now);
            && id == db.accountCounter
            && r.accountCounter == db.accountCounter + 1
            && r.operationCounter == db.operationCounter + 1
            && r.balances == (if id in db.balances then db.balances else db.balances[id := 0])
            && (r.rows == db.rows + [CreateRow(db.operationCounter, id, 0, now)] || r.rows == db.rows)
            && Cache.Lookup(r.cache, accountNmr) == Some(Account(accountNmr, balance))
  {
    Cache.GetAfterAdd(db.cache, Account(accountNmr, balance), Cache.Stamp(now));
  }

  /**
   * Recovery-mode makeNewAccount stores the given id and balance (unless
   * the id is taken), logs nothing and leaves both counters alone.
   */
  lemma NewAccountRecovery(db: Db, accountNmr: int, balance: int, now: nat)
    ensures var (r, id) := AfterNewAccount(db, accountNmr, balance, true, now);
            && id == accountNmr
            && r.accountCounter == db.accountCounter && r.operationCounter == db.operationCounter
            && r.rows == db.rows
            && r.balances == (if id in db.balances then db.balances else db.balances[id := balance])
            && Cache.Lookup(r.cache, accountNmr) == Some(Account(accountNmr, balance))
  {
    Cache.GetAfterAdd(db.cache, Account(accountNmr, balance), Cache.Stamp(now));
  }

  /** After updateBalance(id, b), getAccountBalance(id) returns b: store and cache are both written. */
  lemma BalanceAfterUpdate(db: Db, id: int, b: int, now: nat)
    ensures AccountBalance(AfterUpdateBalance(db, id, b, now), id) == b
    ensures HasAccount(AfterUpdateBalance(db, id, b, now), id)
  {
    Cache.GetAfterAdd(UpdateAccount(db, id, b).cache, Account(id, b), Cache.Stamp(now));
  }

  /**
   * getAccountBalance never fails: an id neither cached nor stored reads as
   * 0, and an uncached stored id reads as its stored balance.
   */
  lemma BalanceOfUnknownIsZero(db: Db, id: int)
    ensures !HasAccount(db, id) ==> AccountBalance(db, id) == 0
    ensures Cache.Lookup(db.cache, id) == None && id in db.balances ==> AccountBalance(db, id) == db.balances[id]
  {
  }

  /** Every stored id lies below currentAccountId and every logged id below currentOperationId. */
  predicate CountersFresh(db: Db)
  {
    && (forall k :: k in db.balances ==> k < db.accountCounter)
    && (forall i :: 0 <= i < |db.rows| ==> db.rows[i].opId < db.operationCounter)
  }

  /** The corrected refresh leaves the tables as they are and makes both counters fresh. */
  lemma RefreshedIsFresh(db: Db)
    requires Tables(db)
    ensures Tables(Refreshed(db)) && CountersFresh(Refreshed(db))
    ensures Refreshed(db).balances == db.balances && Refreshed(db).rows == db.rows
  {
    var ids := OpIds(db.rows);
    forall k | k in db.balances ensures k < NextFreeId(db.accountIds) {
      var i :| 0 <= i < |db.accountIds| && db.accountIds[i] == k;
    }
    forall i | 0 <= i < |db.rows| ensures db.rows[i].opId < NextFreeId(ids) {
      assert ids[i] == db.rows[i].opId;
    }
  }

  /**
   * With fresh counters, create() allocates an unused account id, stores it
   * with balance 0, logs exactly one creation under a fresh operation id, and
   * the counters stay fresh.
   */
  lemma CreateAllocatesFresh(db: Db, now: nat)
    requires Tables(db) && CountersFresh(db)
    ensures var (r, id) := AfterNewAccount(db, 0, 0, false, now);
            && id !in db.balances
            && r.balances == db.balances[id := 0]
            && r.rows == db.rows + [CreateRow(db.operationCounter, id, 0, now)]
            && Tables(r) && CountersFresh(r)
  {
    var id := db.accountCounter;
    var stored := InsertAccount(db.(accountCounter := id + 1), id, 0);
    var cached := CacheAdd(stored, Account(0, 0), now);
    var row := CreateRow(db.operationCounter, id, 0, now);
    assert !HasOpId(cached.rows, row.opId);
    assert RowAccepted(cached, row);
    NewAccountKeepsTables(db, 0, 0, false, now);
  }

  /** Normal-mode movements keep the counters fresh. */
  lemma MovementKeepsFresh(db: Db, amount: int, account: int, finalBalance: int, now: nat)
    requires CountersFresh(db)
    ensures CountersFresh(AfterMovement(db, 0, amount, account, finalBalance, false, now).0)
  {
    var logged := InsertRow(AdvanceOpCounter(db, false), MovementRow(db.operationCounter, amount, account, finalBalance, now));
    assert CountersFresh(logged);
    assert UpdateAccount(logged, account, finalBalance).balances.Keys == logged.balances.Keys;
  }

  /** Normal-mode transfers keep the counters fresh. */
  lemma TransferKeepsFresh(db: Db, amount: int, from: int, to: int, finalFrom: int, finalTo: int, now: nat)
    requires CountersFresh(db)
    ensures CountersFresh(AfterTransfer(db, 0, amount, from, to, finalFrom, finalTo, false, now).0)
  {
    var logged := InsertRow(AdvanceOpCounter(db, false), TransferRow(db.operationCounter, amount, from, to, finalFrom, finalTo, now));
    assert CountersFresh(logged);
    var first := AfterUpdateBalance(logged, from, finalFrom, now);
    assert UpdateAccount(logged, from, finalFrom).balances.Keys == logged.balances.Keys;
    assert UpdateAccount(first, to, finalTo).balances.Keys == first.balances.Keys;
  }

  /**
   * With the refresh as written, the account counter is an id already in
   * the table, so the next create() stores nothing and hands out an
   * existing account's number; when the log is not empty, its creation row
   * collides on OP_ID as well and is lost.
   */
  lemma RefreshAsWrittenReusesIds(db: Db, now: nat)
    requires Tables(db) && db.accountIds != []
    ensures var (r, id) := AfterNewAccount(RefreshedAsWritten(db), 0, 0, false, now);
            && id in db.balances
            && r.balances == db.balances
            && (db.rows != [] ==> r.rows == db.rows)
  {
    var d := RefreshedAsWritten(db);
    var id := d.accountCounter;
    assert id in db.balances;
    if db.rows != [] {
      var ids := OpIds(db.rows);
      var i :| 0 <= i < |ids| && ids[i] == MaxId(ids);
      assert HasOpId(db.rows, d.operationCounter) by { assert db.rows[i].opId == ids[i]; }
    }
  }

  /**
   * With the refresh as written, the next movement's log row takes the id
   * of the latest logged operation and is rejected, while its balance is
   * still written.
   */
  lemma RefreshAsWrittenDropsNextLog(db: Db, amount: int, account: int, finalBalance: int, now: nat)
    requires db.rows != []
    ensures AfterMovement(RefreshedAsWritten(db), 0, amount, account, finalBalance, false, now).0.rows == db.rows
  {
    var ids := OpIds(db.rows);
    var i :| 0 <= i < |ids| && ids[i] == MaxId(ids);
    assert HasOpId(db.rows, MaxId(ids)) by { assert db.rows[i].opId == ids[i]; }
  }

  /** The filter keeps exactly the rows whose OP_ID is at least n. */
  lemma {:induction false} AtLeastMembers(rows: seq<Row>, n: int)
    ensures forall r :: r in AtLeast(rows, n) <==> r in rows && r.opId >= n
    decreases |rows|
  {
    if rows != [] {
      var init := rows[..|rows| - 1];
      AtLeastMembers(init, n);
      assert rows == init + [rows[|rows| - 1]];
    }
  }

  /** Inserting by time adds exactly one entry and loses none. */
  lemma {:induction false} InsertByTimePermutes(r: Row, s: seq<Row>)
    ensures multiset(InsertByTime(r, s)) == multiset(s) + multiset{r}
    decreases |s|
  {
    if !(s == [] || s[0].timestamp <= r.timestamp) {
      InsertByTimePermutes(r, s[1..]);
      assert s == [s[0]] + s[1..];
    }
  }

  /** Inserting by time into a newest-first sequence keeps it newest first. */
  lemma {:induction false} InsertByTimeSorted(r: Row, s: seq<Row>)
    requires NewestFirstOrder(s)
    ensures NewestFirstOrder(InsertByTime(r, s))
    decreases |s|
  {
    if s == [] || s[0].timestamp <= r.timestamp {
      assert forall k :: 0 <= k < |s| ==> s[k].timestamp <= s[0].timestamp;
      ConsSorted(r, s);
    } else {
      InsertByTimeSorted(r, s[1..]);
      InsertBelowHead(r, s);
      ConsSorted(s[0], InsertByTime(r, s[1..]));
    }
  }

  /** A row no older than every row of a newest-first sequence can head it. */
  lemma ConsSorted(h: Row, t: seq<Row>)
    requires NewestFirstOrder(t)
    requires forall k :: 0 <= k < |t| ==> t[k].timestamp <= h.timestamp
    ensures NewestFirstOrder([h] + t)
  {
    var u := [h] + t;
    forall i, j | 0 <= i < j < |u| ensures u[i].timestamp >= u[j].timestamp {
      assert u[j] == t[j - 1];
      if i > 0 {
        assert u[i] == t[i - 1];
      }
    }
  }

  /** Every row of the insertion behind the head is no newer than the head. */
  lemma InsertBelowHead(r: Row, s: seq<Row>)
    requires NewestFirstOrder(s) && s != [] && r.timestamp < s[0].timestamp
    ensures forall k :: 0 <= k < |InsertByTime(r, s[1..])| ==> InsertByTime(r, s[1..])[k].timestamp <= s[0].timestamp
  {
    var rest := InsertByTime(r, s[1..]);
    InsertByTimePermutes(r, s[1..]);
    forall k | 0 <= k < |rest| ensures rest[k].timestamp <= s[0].timestamp {
      var x := rest[k];
      assert x in multiset(rest);
      if x != r {
        assert x in multiset(s[1..]);
        var m :| 0 <= m < |s[1..]| && s[1..][m] == x;
        assert s[m + 1] == x;
      }
    }
  }

  /** The result set is a reordering of the selected rows. */
  lemma {:induction false} NewestFirstPermutes(rows: seq<Row>)
    ensures multiset(NewestFirst(rows)) == multiset(rows)
    decreases |rows|
  {
    if rows != [] {
      var init := rows[..|rows| - 1];
      NewestFirstPermutes(init);
      InsertByTimePermutes(rows[|rows| - 1], NewestFirst(init));
      assert rows == init + [rows[|rows| - 1]];
    }
  }

  /** The result set comes out newest first. */
  lemma {:induction false} NewestFirstSorted(rows: seq<Row>)
    ensures NewestFirstOrder(NewestFirst(rows))
    decreases |rows|
  {
    if rows != [] {
      NewestFirstSorted(rows[..|rows| - 1]);
      InsertByTimeSorted(rows[|rows| - 1], NewestFirst(rows[..|rows| - 1]));
    }
  }

  /** Timestamps never decrease along the table: rows were written by a clock that does not go back. */
  predicate OldestFirstOrder(rows: seq<Row>)
  {
    forall i, j :: 0 <= i < j < |rows| ==> rows[i].timestamp <= rows[j].timestamp
  }

  /** An insert stamped no earlier than every logged row keeps the table oldest first. */
  lemma InsertKeepsOldestFirst(db: Db, r: Row)
    requires OldestFirstOrder(db.rows)
    requires forall i :: 0 <= i < |db.rows| ==> db.rows[i].timestamp <= r.timestamp
    ensures OldestFirstOrder(InsertRow(db, r).rows)
  {
    if RowAccepted(db, r) {
      var t := db.rows + [r];
      forall i, j | 0 <= i < j < |t| ensures t[i].timestamp <= t[j].timestamp {
        assert t[i] == db.rows[i];
      }
    }
  }

  /** Filtering keeps the oldest-first order. */
  lemma {:induction false} AtLeastKeepsOrder(rows: seq<Row>, n: int)
    requires OldestFirstOrder(rows)
    ensures OldestFirstOrder(AtLeast(rows, n))
    decreases |rows|
  {
    if rows != [] {
      var init := rows[..|rows| - 1];
      var last := rows[|rows| - 1];
      AtLeastKeepsOrder(init, n);
      if last.opId >= n {
        var f := AtLeast(init, n);
        AtLeastMembers(init, n);
        var t := f + [last];
        forall i, j | 0 <= i < j < |t| ensures t[i].timestamp <= t[j].timestamp {
          assert t[i] == f[i];
          if j == |f| {
            assert f[i] in init;
          } else {
            assert t[j] == f[j];
          }
        }
      }
    }
  }

  /** On a table written oldest first, ORDER BY TIMESTAMP DESC is the reverse of table order. */
  lemma {:induction false} NewestFirstOfOldestFirst(rows: seq<Row>)
    requires OldestFirstOrder(rows)
    ensures NewestFirst(rows) == Reverse(rows)
    decreases |rows|
  {
    if rows != [] {
      var init := rows[..|rows| - 1];
      NewestFirstOfOldestFirst(init);
      if init != [] {
        assert Reverse(init)[0] == init[|init| - 1];
      }
    }
  }

  /** Reading rows one after the other decodes them one after the other. */
  lemma {:induction false} DecodeAllAppend(a: seq<Row>, b: seq<Row>)
    ensures DecodeAll(a + b) == DecodeAll(a) + DecodeAll(b)
    decreases |b|
  {
    if b == [] {
      assert a + b == a;
    } else {
      var init := b[..|b| - 1];
      DecodeAllAppend(a, init);
      assert (a + b)[..|a + b| - 1] == a + init;
    }
  }

  /** Decoding in reverse order yields the decoded operations in reverse order. */
  lemma {:induction false} DecodeAllReverse(rows: seq<Row>)
    ensures DecodeAll(Reverse(rows)) == Reverse(DecodeAll(rows))
    decreases |rows|
  {
    if rows != [] {
      var init := rows[..|rows| - 1];
      var last := rows[|rows| - 1];
      DecodeAllReverse(init);
      assert Reverse(rows) == [last] + Reverse(init);
      DecodeAllAppend([last], Reverse(init));
      assert DecodeAll([last]) == DecodeAll([last][..0]) + (if DecodeRow(last).Some? then [DecodeRow(last).value] else []);
      var d := DecodeAll(init);
      if DecodeRow(last).Some? {
        assert DecodeAll(rows) == d + [DecodeRow(last).value];
        assert Reverse(d + [DecodeRow(last).value]) == [DecodeRow(last).value] + Reverse(d);
      }
    }
  }

  /** Every row of a well-formed table decodes, so getOperationsAfter skips nothing. */
  lemma {:induction false} DecodeAllKeepsCount(rows: seq<Row>)
    requires forall i :: 0 <= i < |rows| ==> DecodeRow(rows[i]).Some?
    ensures |DecodeAll(rows)| == |rows|
    decreases |rows|
  {
    if rows != [] {
      DecodeAllKeepsCount(rows[..|rows| - 1]);
    }
  }

  /** An operation is returned exactly when some row decodes to it. */
  lemma {:induction false} DecodeAllMembers(rows: seq<Row>)
    ensures forall op :: op in DecodeAll(rows) <==> exists r :: r in rows && DecodeRow(r) == Some(op)
    decreases |rows|
  {
    if rows != [] {
      var init := rows[..|rows| - 1];
      DecodeAllMembers(init);
      assert rows == init + [rows[|rows| - 1]];
    }
  }

  /**
   * getOperationsAfter(n) returns, newest first, an operation for each
   * logged row with id at least n, and nothing else.
   */
  lemma OperationsAfterExactly(db: Db, n: int)
    ensures forall op :: op in OperationsAfter(db, n) <==> exists r :: r in db.rows && r.opId >= n && DecodeRow(r) == Some(op)
    ensures Tables(db) ==> |OperationsAfter(db, n)| == |AtLeast(db.rows, n)|
  {
    var ordered := NewestFirst(AtLeast(db.rows, n));
    SelectedRows(db.rows, n);
    DecodeAllMembers(ordered);
    if Tables(db) {
      forall i | 0 <= i < |ordered| ensures DecodeRow(ordered[i]).Some? {
        assert ordered[i] in db.rows;
      }
      DecodeAllKeepsCount(ordered);
    }
  }

  /** The ordered result set holds exactly the rows with id at least n, each once. */
  lemma SelectedRows(rows: seq<Row>, n: int)
    ensures forall r :: r in NewestFirst(AtLeast(rows, n)) <==> r in rows && r.opId >= n
    ensures |NewestFirst(AtLeast(rows, n))| == |AtLeast(rows, n)|
  {
    var selected := AtLeast(rows, n);
    var ordered := NewestFirst(selected);
    AtLeastMembers(rows, n);
    NewestFirstPermutes(selected);
    forall r ensures r in ordered <==> r in selected {
      assert r in ordered <==> r in multiset(ordered);
    }
    assert |multiset(ordered)| == |multiset(selected)|;
  }

  /**
   * On a table written oldest first, getOperationsAfter(n) is the log from
   * id n on, read backwards.
   */
  lemma OperationsAfterOfOldestFirst(db: Db, n: int)
    requires OldestFirstOrder(db.rows)
    ensures OperationsAfter(db, n) == Reverse(DecodeAll(AtLeast(db.rows, n)))
  {
    AtLeastKeepsOrder(db.rows, n);
    NewestFirstOfOldestFirst(AtLeast(db.rows, n));
    DecodeAllReverse(AtLeast(db.rows, n));
  }

  /**
   * The DataAccess object: the two tables, the two counters and the cache
   * it owns. Opening the connection refreshes both counters.
   */
  class DataAccess {
    var accountIds: seq<int>
    var balances: map<int, int>
    var rows: seq<Row>
    var currentAccountId: int
    var currentOperationId: int
    const cache: Cache.CacheManager

    function State(): Db
      reads this, cache
    {
      Db(accountIds, balances, rows, currentAccountId, currentOperationId, cache.State())
    }

    ghost predicate Valid()
      reads this, cache
    {
      Tables(State())
    }

    /**
     * initEDBConnection over the tables found in the database: a fresh
     * cache of 1024 entries, then both counters refreshed with the corrected
     * refresh, where the source leaves them at the last id in use.
     */
    constructor (ids: seq<int>, stored: map<int, int>, logged: seq<Row>)
      requires Tables(Db(ids, stored, logged, 0, 0, Cache.CacheState(CacheCapacity, map[], [])))
      ensures Valid() && CountersFresh(State())
      ensures State() == Refreshed(Db(ids, stored, logged, 0, 0, Cache.CacheState(CacheCapacity, map[], [])))
      ensures fresh(cache)
    {
      RefreshedIsFresh(Db(ids, stored, logged, 0, 0, Cache.CacheState(CacheCapacity, map[], [])));
      accountIds := ids;
      balances := stored;
      rows := logged;
      cache := new Cache.CacheManager(CacheCapacity);
      currentAccountId := NextFreeId(ids);
      currentOperationId := NextFreeId(OpIds(logged));
    }

    /** One INSERT into OPERATIONS. */
    method Insert(r: Row)
      requires Valid() && DecodeRow(r).Some?
      modifies this
      ensures Valid()
      ensures State() == InsertRow(old(State()), r)
    {
      InsertRowKeepsTables(State(), r);
      if RowAccepted(State(), r) {
        rows := rows + [r];
      }
    }

    /** One INSERT into ACCOUNTS. */
    method InsertAccountRow(id: int, balance: int)
      requires Valid()
      modifies this
      ensures Valid()
      ensures State() == InsertAccount(old(State()), id, balance)
    {
      InsertAccountKeepsTables(State(), id, balance);
      if id !in balances {
        accountIds := accountIds + [id];
        balances := balances[id := balance];
      }
    }

    /** updateBalance: the UPDATE, then the cache. */
    method UpdateBalance(accountId: int, finalAmount: int, now: nat)
      requires Valid()
      modifies this, cache
      ensures Valid()
      ensures State() == AfterUpdateBalance(old(State()), accountId, finalAmount, now)
    {
      UpdateKeepsTables(State(), accountId, finalAmount, now);
      if accountId in balances {
        balances := balances[accountId := finalAmount];
      }
      cache.Add(Account(accountId, finalAmount), now);
    }

    method MakeMovement(opId: int, amount: int, accountId: int, finalBalance: int, recovery: bool, now: nat)
      returns (generatedId: int)
      requires Valid()
      modifies this, cache
      ensures Valid()
      ensures State() == AfterMovement(old(State()), opId, amount, accountId, finalBalance, recovery, now).0
      ensures generatedId == AfterMovement(old(State()), opId, amount, accountId, finalBalance, recovery, now).1
    {
      ghost var s0 := State();
      if recovery {
        generatedId := opId;
      } else {
        generatedId := currentOperationId;
        currentOperationId := currentOperationId + 1;
      }
      assert State() == AdvanceOpCounter(s0, recovery);
      Insert(MovementRow(generatedId, amount, accountId, finalBalance, now));
      ghost var logged := State();
      if !recovery {
        UpdateBalance(accountId, finalBalance, now);
      }
      assert State() == if recovery then logged else AfterUpdateBalance(logged, accountId, finalBalance, now);
    }

    method MakeTransfer(opId: int, amount: int, from: int, to: int, finalFrom: int, finalTo: int,
                        recovery: bool, now: nat) returns (generatedId: int)
      requires Valid()
      modifies this, cache
      ensures Valid()
      ensures State() == AfterTransfer(old(State()), opId, amount, from, to, finalFrom, finalTo, recovery, now).0
      ensures generatedId == AfterTransfer(old(State()), opId, amount, from, to, finalFrom, finalTo, recovery, now).1
    {
      ghost var s0 := State();
      if recovery {
        generatedId := opId;
      } else {
        generatedId := currentOperationId;
        currentOperationId := currentOperationId + 1;
      }
      assert State() == AdvanceOpCounter(s0, recovery);
      Insert(TransferRow(generatedId, amount, from, to, finalFrom, finalTo, now));
      ghost var logged := State();
      if !recovery {
        UpdateBalances(from, finalFrom, to, finalTo, now);
      }
      assert State() == if recovery then logged
                        else AfterUpdateBalance(AfterUpdateBalance(logged, from, finalFrom, now), to, finalTo, now);
    }

    /** The two updateBalance calls of a transfer, origin first. */
    method UpdateBalances(from: int, finalFrom: int, to: int, finalTo: int, now: nat)
      requires Valid()
      modifies this, cache
      ensures Valid()
      ensures State() == AfterUpdateBalance(AfterUpdateBalance(old(State()), from, finalFrom, now), to, finalTo, now)
    {
      UpdateBalance(from, finalFrom, now);
      UpdateBalance(to, finalTo, now);
    }

    method LogNewAccount(accountId: int, balance: int, now: nat) returns (generatedId: int)
      requires Valid()
      modifies this
      ensures Valid()
      ensures State() == AfterLogNewAccount(old(State()), accountId, balance, now).0
      ensures generatedId == AfterLogNewAccount(old(State()), accountId, balance, now).1
    {
      generatedId := currentOperationId;
      currentOperationId := currentOperationId + 1;
      Insert(CreateRow(generatedId, accountId, balance, now));
    }

    method MakeNewAccount(accountNmr: int, balance: int, recovery: bool, now: nat) returns (generatedId: int)
      requires Valid()
      modifies this, cache
      ensures Valid()
      ensures State() == AfterNewAccount(old(State()), accountNmr, balance, recovery, now).0
      ensures generatedId == AfterNewAccount(old(State()), accountNmr, balance, recovery, now).1
    {
      ghost var s0 := State();
      if recovery {
        generatedId := accountNmr;
      } else {
        generatedId := currentAccountId;
        currentAccountId := currentAccountId + 1;
      }
      ghost var counted := State();
      assert counted == if recovery then s0 else s0.(accountCounter := s0.accountCounter + 1);
      var storedBalance := if recovery then balance else 0;
      InsertAccountRow(generatedId, storedBalance);
      CacheAddKeepsTables(State(), Account(accountNmr, balance), now);
      cache.Add(Account(accountNmr, balance), now);
      if !recovery {
        var _ := LogNewAccount(generatedId, 0, now);
      }
      NewAccountSteps(s0, accountNmr, balance, recovery, now, generatedId, storedBalance);
    }

    /** getAccountBalance: the cache first, then the table, else 0. */
    method GetAccountBalance(accountId: int) returns (balance: int)
      ensures balance == AccountBalance(State(), accountId)
      ensures !HasAccount(State(), accountId) ==> balance == 0
    {
      var a := cache.Get(accountId);
      if a.Some? {
        return a.value.balance;
      }
      balance := 0;
      if accountId in balances {
        balance := balances[accountId];
      }
    }

    /** hasAccount: cached, or a row with that ACCOUNT_ID exists. */
    method HasAccountId(accountId: int) returns (b: bool)
      ensures b <==> Cache.Lookup(cache.State(), accountId).Some? || accountId in balances
    {
      var a := cache.Get(accountId);
      if a.Some? {
        return true;
      }
      b := accountId in balances;
    }

    /**
     * getOperationsAfter: walk the result set of the ordered SELECT and
     * build the list, skipping rows of an unknown type.
     */
    method GetOperationsAfter(n: int) returns (ops: seq<Operation>)
      ensures ops == OperationsAfter(State(), n)
      ensures forall op :: op in ops <==> exists r :: r in rows && r.opId >= n && DecodeRow(r) == Some(op)
    {
      var res := NewestFirst(AtLeast(rows, n));
      ops := [];
      var i := 0;
      while i < |res|
        invariant 0 <= i <= |res|
        invariant ops == DecodeAll(res[..i])
      {
        assert res[..i + 1][..i] == res[..i];
        match DecodeRow(res[i]) {
          case Some(op) => ops := ops + [op];
          case None =>
        }
        i := i + 1;
      }
      assert res[..i] == res;
      OperationsAfterExactly(State(), n);
    }

    /**
     * getCurrentOperationId as written: the largest logged operation id,
     * or 1 when nothing is logged.
     */
    method CurrentOperationId() returns (n: int)
      ensures rows == [] ==> n == 1
      ensures rows != [] ==> (exists i :: 0 <= i < |rows| && rows[i].opId == n)
      ensures forall i :: 0 <= i < |rows| ==> rows[i].opId <= n
      ensures n == LastIdOr1(OpIds(rows))
    {
      if rows == [] {
        return 1;
      }
      var ids := OpIds(rows);
      n := MaxId(ids);
    }

    method RefreshCurrentAccountId()
      modifies this
      ensures State() == old(State()).(accountCounter := NextFreeId(accountIds))
    {
      currentAccountId := NextFreeId(accountIds);
    }

    method RefreshCurrentOperationId()
      modifies this
      ensures State() == old(State()).(operationCounter := NextFreeId(OpIds(rows)))
    {
      currentOperationId := NextFreeId(OpIds(rows));
    }
  }
}
