/**
 * The ledger engine: create, balance, movement and transfer over the data
 * layer, and the recovery replay that rebuilds a replica from the list of
 * operations a peer sends. Each operation is a function on the data
 * layer's state (`Data.Db`), and the class BankImpl performs the same steps
 * through a DataAccess object.
 */
module Bank {
  import opened Wrappers
  import opened BankOperations
  import Cache
  import opened Data

  /** movement's guard: a withdrawal that would leave the balance negative. */
  predicate MovementRejected(balance: int, amount: int)
  {
    amount < 0 && amount + balance < 0
  }

  /**
   * transfer's guard as written: a negative amount. The first disjunct is
   * subsumed by the second, so the origin's funds are never checked.
   */
  predicate TransferRejected(balanceFrom: int, amount: int)
  {
    (amount < 0 && balanceFrom - amount < 0) || amount < 0
  }

  /** create: a normal-mode makeNewAccount(0, 0); the reply is the generated id. */
  function Created(db: Db, now: nat): (Db, int)
  {
    AfterNewAccount(db, 0, 0, false, now)
  }

  /** movement: read the balance, check the guard, log the movement with the new balance. */
  function Moved(db: Db, account: int, amount: int, now: nat): (Db, bool)
  {
    var balance := AccountBalance(db, account);
    if MovementRejected(balance, amount) then (db, false)
    else (AfterMovement(db, 0, amount, account, amount + balance, false, now).0, true)
  }

  /** transfer: read both balances, check the guard, log the transfer with both new balances. */
  function Transferred(db: Db, origin: int, destination: int, amount: int, now: nat): (Db, bool)
  {
    var balanceFrom := AccountBalance(db, origin);
    var balanceTo := AccountBalance(db, destination);
    if TransferRejected(balanceFrom, amount) then (db, false)
    else (AfterTransfer(db, 0, amount, origin, destination, balanceFrom - amount, balanceTo + amount, false, now).0, true)
  }

  /** The balance write of a first sighting: insert the account with v when unknown, else update it. */
  function Restore(db: Db, a: int, v: int, now: nat): Db
  {
    if !HasAccount(db, a) then AfterNewAccount(db, a, v, true, now).0
    else AfterUpdateBalance(db, a, v, now)
  }

  /**
   * recoverCreateAccountOperation: on the first sighting insert the account
   * with balance 0, then always log a creation under a fresh operation id.
   */
  function RecoverCreate(db: Db, rec: set<int>, account: int, now: nat): (Db, set<int>)
  {
    var d := if account in rec then db else AfterNewAccount(db, account, 0, true, now).0;
    (AfterLogNewAccount(d, account, 0, now).0, rec + {account})
  }

  /** recoverMovementOperation: on the first sighting restore the final balance; always log under the movement's id. */
  function RecoverMovement(db: Db, rec: set<int>, id: int, amount: int, account: int, finalBalance: int, now: nat)
    : (Db, set<int>)
  {
    var d := if account in rec then db else Restore(db, account, finalBalance, now);
    (AfterMovement(d, id, amount, account, finalBalance, true, now).0, rec + {account})
  }

  /**
   * recoverTransferOperation: both sightings are decided before either
   * write, the origin is restored first, and the transfer is logged under
   * its own id.
   */
  function RecoverTransfer(db: Db, rec: set<int>, id: int, amount: int, from: int, to: int,
                           finalFrom: int, finalTo: int, now: nat): (Db, set<int>)
  {
    var d1 := if from in rec then db else Restore(db, from, finalFrom, now);
    var d2 := if to in rec then d1 else Restore(d1, to, finalTo, now);
    (AfterTransfer(d2, id, amount, from, to, finalFrom, finalTo, true, now).0, rec + {from, to})
  }

  /** One iteration of doRecovery's loop, dispatched on the kind of operation. */
  function Recover(db: Db, rec: set<int>, op: Operation, now: nat): (Db, set<int>)
  {
    match op
    case Create(_, account) => RecoverCreate(db, rec, account, now)
    case Movement(id, amount, finalBalance, account) => RecoverMovement(db, rec, id, amount, account, finalBalance, now)
    case Transfer(id, amount, from, to, finalFrom, finalTo) =>
      RecoverTransfer(db, rec, id, amount, from, to, finalFrom, finalTo, now)
  }

  /** doRecovery's loop over ops, in list order, from an empty set of recovered accounts. */
  function Replay(db: Db, ops: seq<Operation>, now: nat): (Db, set<int>)
    decreases |ops|
  {
    if ops == [] then (db, {})
    else
      var (d, rec) := Replay(db, ops[..|ops| - 1], now);
      Recover(d, rec, ops[|ops| - 1], now)
  }

  /**
   * doRecovery: the replay, then both counters refreshed with the corrected
   * refresh (one past the largest id in use); the source's own refresh leaves
   * them at the last id in use, as `RefreshedAsWritten` does.
   */
  function Recovered(db: Db, ops: seq<Operation>, now: nat): Db
  {
    Refreshed(Replay(db, ops, now).0)
  }

  /**
   * A movement is refused exactly when it withdraws more than the balance
   * read; a refused movement changes nothing, an accepted one moves the
   * balance read by the amount and spends one operation id.
   */
  lemma MovementGuard(db: Db, account: int, amount: int, now: nat)
    ensures var (r, ok) := Moved(db, account, amount, now);
            && (!ok <==> amount < 0 && AccountBalance(db, account) + amount < 0)
            && (!ok ==> r == db)
            && (ok ==> AccountBalance(r, account) == AccountBalance(db, account) + amount)
            && (ok ==> r.operationCounter == db.operationCounter + 1)
  {
    var balance := AccountBalance(db, account);
    if !MovementRejected(balance, amount) {
      MovementWritesBalance(db, amount, account, amount + balance, now);
    }
  }

  /**
   * On consistent tables with fresh counters, an accepted movement on a
   * stored account logs exactly one Movement entry carrying the new balance
   * and stores that balance.
   */
  lemma MovementLogsOnce(db: Db, account: int, amount: int, now: nat)
    requires Tables(db) && CountersFresh(db) && account in db.balances
    ensures var (r, ok) := Moved(db, account, amount, now);
            var balance := AccountBalance(db, account);
            ok ==> && r.rows == db.rows + [MovementRow(db.operationCounter, amount, account, balance + amount, now)]
                   && r.balances == db.balances[account := balance + amount]
  {
    var balance := AccountBalance(db, account);
    if !MovementRejected(balance, amount) {
      var row := MovementRow(db.operationCounter, amount, account, balance + amount, now);
      assert RowAccepted(AdvanceOpCounter(db, false), row);
      MovementWritesBalance(db, amount, account, balance + amount, now);
    }
  }

  /**
   * A transfer is refused exactly when the amount is negative, whatever the
   * balances; a refused transfer changes nothing, an accepted one credits
   * the destination and spends one operation id.
   */
  lemma TransferGuard(db: Db, origin: int, destination: int, amount: int, now: nat)
    ensures var (r, ok) := Transferred(db, origin, destination, amount, now);
            && (!ok <==> amount < 0)
            && (!ok ==> r == db)
            && (ok ==> AccountBalance(r, destination) == AccountBalance(db, destination) + amount)
            && (ok ==> r.operationCounter == db.operationCounter + 1)
  {
    var bf := AccountBalance(db, origin);
    var bt := AccountBalance(db, destination);
    if amount >= 0 {
      var logged := InsertRow(AdvanceOpCounter(db, false), TransferRow(db.operationCounter, amount, origin, destination, bf - amount, bt + amount, now));
      BalanceAfterUpdate(AfterUpdateBalance(logged, origin, bf - amount, now), destination, bt + amount, now);
    }
  }

  /**
   * On consistent tables with fresh counters, an accepted transfer between
   * two stored accounts logs exactly one Transfer entry and stores
   * origin := balanceFrom - amount and destination := balanceTo + amount.
   */
  lemma TransferLogsOnce(db: Db, origin: int, destination: int, amount: int, now: nat)
    requires Tables(db) && CountersFresh(db) && origin in db.balances && destination in db.balances
    ensures var (r, ok) := Transferred(db, origin, destination, amount, now);
            var bf := AccountBalance(db, origin);
            var bt := AccountBalance(db, destination);
            ok ==> && r.rows == db.rows + [TransferRow(db.operationCounter, amount, origin, destination, bf - amount, bt + amount, now)]
                   && r.balances == db.balances[origin := bf - amount][destination := bt + amount]
  {
    var bf := AccountBalance(db, origin);
    var bt := AccountBalance(db, destination);
    if amount >= 0 {
      TransferredAccepted(db, origin, destination, amount, now);
      var row := TransferRow(db.operationCounter, amount, origin, destination, bf - amount, bt + amount, now);
      assert RowAccepted(AdvanceOpCounter(db, false), row);
      TransferWritesBalances(db, amount, origin, destination, bf - amount, bt + amount, now);
    }
  }

  /** TransferredAccepted, with the arguments of the data layer's call given as names. */
  lemma TransferredWith(db: Db, origin: int, destination: int, amount: int, now: nat,
                        finalFrom: int, finalTo: int, opId: int, recovery: bool)
    requires finalFrom == AccountBalance(db, origin) - amount && finalTo == AccountBalance(db, destination) + amount
    requires amount >= 0 && opId == 0 && !recovery
    ensures Transferred(db, origin, destination, amount, now)
            == (AfterTransfer(db, opId, amount, origin, destination, finalFrom, finalTo, recovery, now).0, true)
  {
    TransferredAccepted(db, origin, destination, amount, now);
  }

  /** A transfer of a non-negative amount is accepted and is the data layer's write of the balances read. */
  lemma TransferredAccepted(db: Db, origin: int, destination: int, amount: int, now: nat)
    requires amount >= 0
    ensures var bf := AccountBalance(db, origin);
            var bt := AccountBalance(db, destination);
            Transferred(db, origin, destination, amount, now)
            == (AfterTransfer(db, 0, amount, origin, destination, bf - amount, bt + amount, false, now).0, true)
  {
  }

  /**
   * The origin's funds are not checked: a transfer of more than the
   * origin holds is accepted and stores a negative origin balance.
   */
  lemma TransferOverdraws(db: Db, origin: int, destination: int, amount: int, now: nat)
    requires origin in db.balances && origin != destination && destination in db.balances
    requires 0 <= AccountBalance(db, origin) < amount
    ensures var (r, ok) := Transferred(db, origin, destination, amount, now);
            ok && r.balances[origin] < 0
  {
    var bf := AccountBalance(db, origin);
    var bt := AccountBalance(db, destination);
    TransferWritesBalances(db, amount, origin, destination, bf - amount, bt + amount, now);
  }

  /**
   * A transfer from an account to itself is accepted and leaves the
   * account credited with the amount: the destination's write comes last.
   */
  lemma SelfTransferCredits(db: Db, account: int, amount: int, now: nat)
    requires account in db.balances && amount >= 0
    ensures var (r, ok) := Transferred(db, account, account, amount, now);
            && ok
            && r.balances[account] == AccountBalance(db, account) + amount
            && AccountBalance(r, account) == AccountBalance(db, account) + amount
  {
    var b := AccountBalance(db, account);
    TransferWritesBalances(db, amount, account, account, b - amount, b + amount, now);
  }

  /**
   * On consistent tables with fresh counters, create returns an id no
   * account has, stores it with balance 0 and logs its creation; the
   * cache receives account 0 with balance 0, not the new id.
   */
  lemma CreateAllocates(db: Db, now: nat)
    requires Tables(db) && CountersFresh(db)
    ensures var (r, id) := Created(db, now);
            && id !in db.balances
            && r.balances == db.balances[id := 0]
            && r.rows == db.rows + [CreateRow(db.operationCounter, id, 0, now)]
            && Cache.Lookup(r.cache, 0) == Some(Account(0, 0))
            && Tables(r) && CountersFresh(r)
  {
    CreateAllocatesFresh(db, now);
    NewAccountNormal(db, 0, 0, now);
  }

  /**
   * A movement on an account that does not exist is accepted: its log row
   * is refused by the foreign key but its balance lands in the cache. When
   * create then hands out that id, the new account reads back that cached
   * balance although 0 is stored.
   */
  lemma UnknownAccountBalanceInherited(db: Db, amount: int, now: nat)
    requires Tables(db) && CountersFresh(db)
    requires db.cache == Cache.CacheState(CacheCapacity, map[], [])
    requires db.accountCounter != 0 && amount > 0
    ensures var a := db.accountCounter;
            var (moved, ok) := Moved(db, a, amount, now);
            var (created, id) := Created(moved, now);
            && ok && moved.rows == db.rows
            && id == a
            && created.balances[id] == 0
            && AccountBalance(created, id) == amount
  {
    var a := db.accountCounter;
    MovedUnknown(db, amount, now);
    var moved := Moved(db, a, amount, now).0;
    var stored := InsertAccount(moved.(accountCounter := a + 1), a, 0);
    Cache.AddBelowCapacity(stored.cache, Account(0, 0), Cache.Stamp(now));
  }

  /** The movement on the next free id: accepted, nothing logged, the balance only cached. */
  lemma MovedUnknown(db: Db, amount: int, now: nat)
    requires Tables(db) && CountersFresh(db)
    requires db.cache == Cache.CacheState(CacheCapacity, map[], [])
    requires amount > 0
    ensures var a := db.accountCounter;
            var (moved, ok) := Moved(db, a, amount, now);
            && ok && moved.rows == db.rows && moved.accountCounter == a && a !in moved.balances
            && moved.cache.maxSize == CacheCapacity && |moved.cache.entries| == 1
            && Cache.Lookup(moved.cache, a) == Some(Account(a, amount))
  {
    assert db.accountCounter !in db.balances;
  }

  /** Nothing about account a changed from d to e, except that its cache entry may have been evicted. */
  predicate Untouched(d: Db, e: Db, a: int)
  {
    && (a in e.balances <==> a in d.balances)
    && (a in d.balances ==> e.balances[a] == d.balances[a])
    && (Cache.Lookup(e.cache, a) == Cache.Lookup(d.cache, a) || Cache.Lookup(e.cache, a) == None)
  }

  /** Account a is stored with vs, and its cache entry, if it has one, holds vc. */
  predicate Holds(d: Db, a: int, vs: int, vc: int)
  {
    && a in d.balances && d.balances[a] == vs
    && (Cache.Lookup(d.cache, a) == None || Cache.Lookup(d.cache, a) == Some(Account(a, vc)))
  }

  /** Account a is cached only if it is also stored. */
  predicate NoPhantom(d: Db, a: int)
  {
    Cache.Lookup(d.cache, a).Some? ==> a in d.balances
  }

  lemma CacheAddUntouched(d: Db, o: Account, now: nat, a: int)
    requires o.id != a
    ensures Untouched(d, CacheAdd(d, o, now), a)
  {
    Cache.AddKeepsOthers(d.cache, o, Cache.Stamp(now), a);
  }

  /** Restoring another account leaves a alone. */
  lemma RestoreUntouched(d: Db, b: int, v: int, now: nat, a: int)
    requires b != a
    ensures Untouched(d, Restore(d, b, v, now), a)
  {
    if !HasAccount(d, b) {
      CacheAddUntouched(InsertAccount(d, b, v), Account(b, v), now, a);
    } else {
      CacheAddUntouched(UpdateAccount(d, b, v), Account(b, v), now, a);
    }
  }

  /** Restoring an account that is not a phantom stores and caches the restored balance. */
  lemma RestoreSets(d: Db, a: int, v: int, now: nat)
    requires NoPhantom(d, a)
    ensures Holds(Restore(d, a, v, now), a, v, v)
  {
    if !HasAccount(d, a) {
      Cache.GetAfterAdd(InsertAccount(d, a, v).cache, Account(a, v), Cache.Stamp(now));
    } else {
      Cache.GetAfterAdd(UpdateAccount(d, a, v).cache, Account(a, v), Cache.Stamp(now));
    }
  }

  /** A recovery step whose account is already recovered, or not mentioned, leaves a alone. */
  lemma RecoverUntouched(d: Db, rec: set<int>, op: Operation, now: nat, a: int)
    requires !Mentions(op, a) || a in rec
    ensures Untouched(d, Recover(d, rec, op, now).0, a)
  {
    match op
    case Create(_, account) =>
      RecoverCreateUntouched(d, rec, account, now, a);
    case Movement(id, amount, finalBalance, account) =>
      RecoverMovementUntouched(d, rec, id, amount, account, finalBalance, now, a);
    case Transfer(id, amount, from, to, finalFrom, finalTo) =>
      RecoverTransferUntouched(d, rec, id, amount, from, to, finalFrom, finalTo, now, a);
  }

  /** The creation case of RecoverUntouched. */
  lemma RecoverCreateUntouched(d: Db, rec: set<int>, account: int, now: nat, a: int)
    requires account != a || a in rec
    ensures Untouched(d, RecoverCreate(d, rec, account, now).0, a)
  {
    if account !in rec {
      CacheAddUntouched(InsertAccount(d, account, 0), Account(account, 0), now, a);
    }
  }

  /** The movement case of RecoverUntouched. */
  lemma RecoverMovementUntouched(d: Db, rec: set<int>, id: int, amount: int, account: int, finalBalance: int,
                                 now: nat, a: int)
    requires account != a || a in rec
    ensures Untouched(d, RecoverMovement(d, rec, id, amount, account, finalBalance, now).0, a)
  {
    if account !in rec {
      RestoreUntouched(d, account, finalBalance, now, a);
    }
  }

  /** The transfer case of RecoverUntouched. */
  lemma RecoverTransferUntouched(d: Db, rec: set<int>, id: int, amount: int, from: int, to: int,
                                 finalFrom: int, finalTo: int, now: nat, a: int)
    requires (from != a && to != a) || a in rec
    ensures Untouched(d, RecoverTransfer(d, rec, id, amount, from, to, finalFrom, finalTo, now).0, a)
  {
    var d1 := if from in rec then d else Restore(d, from, finalFrom, now);
    if from !in rec {
      RestoreUntouched(d, from, finalFrom, now, a);
    }
    if to !in rec {
      RestoreUntouched(d1, to, finalTo, now, a);
    }
  }

  /** The first sighting of a in a transfer restores the balance the transfer recorded for a. */
  lemma TransferFirstSighting(d: Db, rec: set<int>, id: int, amount: int, from: int, to: int,
                              finalFrom: int, finalTo: int, now: nat, a: int)
    requires a == from || a == to
    requires a !in rec && NoPhantom(d, a)
    ensures Holds(RecoverTransfer(d, rec, id, amount, from, to, finalFrom, finalTo, now).0,
                  a, if a == to then finalTo else finalFrom, if a == to then finalTo else finalFrom)
  {
    var d1 := if from in rec then d else Restore(d, from, finalFrom, now);
    if a == from {
      RestoreSets(d, a, finalFrom, now);
      if a == to {
        RestoreSets(d1, a, finalTo, now);
      } else if to !in rec {
        RestoreUntouched(d1, to, finalTo, now, a);
      }
    } else {
      if from !in rec {
        RestoreUntouched(d, from, finalFrom, now, a);
      }
      RestoreSets(d1, a, finalTo, now);
    }
  }

  /**
   * The first sighting of a restores the balance op recorded for it, except
   * that a creation leaves an already stored balance in the table.
   */
  lemma FirstSighting(d: Db, rec: set<int>, op: Operation, now: nat, a: int)
    requires Mentions(op, a) && a !in rec && NoPhantom(d, a)
    ensures Holds(Recover(d, rec, op, now).0, a,
                  if op.Create? && a in d.balances then d.balances[a] else Recorded(op, a), Recorded(op, a))
  {
    match op
    case Create(_, account) =>
      Cache.GetAfterAdd(InsertAccount(d, a, 0).cache, Account(a, 0), Cache.Stamp(now));
    case Movement(id, amount, finalBalance, account) =>
      RestoreSets(d, a, finalBalance, now);
    case Transfer(id, amount, from, to, finalFrom, finalTo) =>
      TransferFirstSighting(d, rec, id, amount, from, to, finalFrom, finalTo, now, a);
  }

  /** doRecovery's set holds exactly the accounts the operations mention. */
  lemma {:induction false} ReplayRecovers(db: Db, ops: seq<Operation>, now: nat)
    ensures forall a :: a in Replay(db, ops, now).1 <==> Mentioned(ops, a)
    decreases |ops|
  {
    if ops != [] {
      var init := ops[..|ops| - 1];
      ReplayRecovers(db, init, now);
      assert ops == init + [ops[|ops| - 1]];
      forall a ensures Mentioned(ops, a) <==> Mentioned(init, a) || Mentions(ops[|ops| - 1], a) {
        MentionedAppend(init, ops[|ops| - 1], a);
      }
    }
  }

  /** Until it is first mentioned, the replay leaves an account alone. */
  lemma {:induction false} ReplayBeforeSighting(db: Db, ops: seq<Operation>, now: nat, a: int)
    requires !Mentioned(ops, a)
    ensures Untouched(db, Replay(db, ops, now).0, a)
    decreases |ops|
  {
    if ops != [] {
      var init := ops[..|ops| - 1];
      var last := ops[|ops| - 1];
      assert ops == init + [last];
      MentionedAppend(init, last, a);
      ReplayBeforeSighting(db, init, now, a);
      var (d, rec) := Replay(db, init, now);
      RecoverUntouched(d, rec, last, now, a);
    }
  }

  /**
   * After the replay, every mentioned account holds the balance recorded by
   * the first operation that mentions it; later operations on it only add
   * log rows. When that first operation is a creation of an account the
   * table already has, the stored balance stays and only the cache says 0.
   */
  lemma {:induction false} ReplayFirstSighting(db: Db, ops: seq<Operation>, now: nat, a: int)
    requires Mentioned(ops, a) && NoPhantom(db, a)
    ensures var first := FirstMention(ops, a);
            Holds(Replay(db, ops, now).0, a,
                  if first.Create? && a in db.balances then db.balances[a] else Recorded(first, a),
                  Recorded(first, a))
    decreases |ops|
  {
    var init := ops[..|ops| - 1];
    var last := ops[|ops| - 1];
    assert ops == init + [last];
    MentionedAppend(init, last, a);
    FirstMentionAppend(init, last, a);
    var (d, rec) := Replay(db, init, now);
    ReplayRecovers(db, init, now);
    if Mentioned(init, a) {
      ReplayFirstSighting(db, init, now, a);
      RecoverUntouched(d, rec, last, now, a);
    } else {
      ReplayBeforeSighting(db, init, now, a);
      FirstSighting(d, rec, last, now, a);
    }
  }

  /**
   * After doRecovery, an account the list mentions reads back the balance
   * its first mention recorded, unless that mention is the creation of an
   * account the table already held.
   */
  lemma RecoveredBalance(db: Db, ops: seq<Operation>, now: nat, a: int)
    requires Mentioned(ops, a) && NoPhantom(db, a)
    requires !(FirstMention(ops, a).Create? && a in db.balances)
    ensures AccountBalance(Recovered(db, ops, now), a) == Recorded(FirstMention(ops, a), a)
    ensures a in Recovered(db, ops, now).balances && Recovered(db, ops, now).balances[a] == Recorded(FirstMention(ops, a), a)
  {
    ReplayFirstSighting(db, ops, now, a);
  }

  /**
   * Replaying a peer's answer to getOperationsAfter(n): when the peer's rows
   * carry non-decreasing timestamps, the list arrives in reverse table order,
   * so the first sighting of an account is its last row in the peer's log and
   * the replica ends with the balance that row recorded. That row is the
   * latest in history only when the peer wrote its log in history order;
   * `SecondRecoveryTakesOldest` shows a peer for which it is not.
   */
  lemma RecoveryTakesLatest(db: Db, peer: Db, n: int, now: nat, a: int)
    requires OldestFirstOrder(peer.rows)
    requires Mentioned(DecodeAll(AtLeast(peer.rows, n)), a) && NoPhantom(db, a)
    requires !(LastMention(DecodeAll(AtLeast(peer.rows, n)), a).Create? && a in db.balances)
    ensures AccountBalance(Recovered(db, OperationsAfter(peer, n), now), a)
            == Recorded(LastMention(DecodeAll(AtLeast(peer.rows, n)), a), a)
  {
    var log := DecodeAll(AtLeast(peer.rows, n));
    OperationsAfterOfOldestFirst(peer, n);
    FirstOfReverseIsLast(log, a);
    RecoveredBalance(db, OperationsAfter(peer, n), now, a);
  }

  /**
   * A replica recovering from a peer that itself recovered can end with an
   * older balance. Operation 1 moved account 1 to 10 and operation 2 then
   * moved it to 20; the first peer's answer lists them newest first. Replica
   * r replays that answer and holds 20, but it logs operation 2 before
   * operation 1, at one recovery time, so its table is still oldest first by
   * timestamp. A replica recovering from r is sent operation 1 first and ends
   * with 10.
   */
  lemma SecondRecoveryTakesOldest()
    ensures var empty := Db([], map[], [], 1, 1, Cache.CacheState(CacheCapacity, map[], []));
            var r := Recovered(empty, [Movement(2, 10, 20, 1), Movement(1, 10, 10, 1)], 100);
            && AccountBalance(r, 1) == 20
            && OldestFirstOrder(r.rows)
            && OperationsAfter(r, 0) == [Movement(1, 10, 10, 1), Movement(2, 10, 20, 1)]
            && AccountBalance(Recovered(empty, OperationsAfter(r, 0), 200), 1) == 10
  {
    var empty := Db([], map[], [], 1, 1, Cache.CacheState(CacheCapacity, map[], []));
    var ops := [Movement(2, 10, 20, 1), Movement(1, 10, 10, 1)];
    assert ops[..1] == [ops[0]] && ops[..1][..0] == [];
    var s1 := Recover(empty, {}, ops[0], 100);
    assert Replay(empty, ops[..1], 100) == s1;
    var s2 := Recover(s1.0, s1.1, ops[1], 100);
    assert Replay(empty, ops, 100) == s2;
    assert s1.0.rows == [MovementRow(2, 10, 1, 20, 100)];
    assert s2.0.rows == [MovementRow(2, 10, 1, 20, 100), MovementRow(1, 10, 1, 10, 100)];
    var r := Recovered(empty, ops, 100);
    RecoveredBalance(empty, ops, 100, 1);
    var rows := r.rows;
    assert rows[..1][..0] == [];
    assert AtLeast(rows, 0) == rows;
    assert NewestFirst(rows[..1]) == [rows[0]];
    assert NewestFirst(rows) == [rows[1], rows[0]];
    var answer := OperationsAfter(r, 0);
    assert [rows[1], rows[0]][..1] == [rows[1]];
    assert DecodeAll([rows[1]]) == [Movement(1, 10, 10, 1)];
    assert answer == [Movement(1, 10, 10, 1), Movement(2, 10, 20, 1)];
    assert answer[..1] == [answer[0]];
    RecoveredBalance(empty, answer, 200, 1);
  }

  /** The number of creations in ops. */
  function CreateCount(ops: seq<Operation>): nat
    decreases |ops|
  {
    if ops == [] then 0
    else CreateCount(ops[..|ops| - 1]) + (if ops[|ops| - 1].Create? then 1 else 0)
  }

  /**
   * The replay uses no account ids of its own and one operation id per
   * creation: movements and transfers keep their historical ids.
   */
  lemma {:induction false} ReplayCounters(db: Db, ops: seq<Operation>, now: nat)
    ensures Replay(db, ops, now).0.accountCounter == db.accountCounter
    ensures Replay(db, ops, now).0.operationCounter == db.operationCounter + CreateCount(ops)
    decreases |ops|
  {
    if ops != [] {
      ReplayCounters(db, ops[..|ops| - 1], now);
      var (d, rec) := Replay(db, ops[..|ops| - 1], now);
      RecoverCounters(d, rec, ops[|ops| - 1], now);
    }
  }

  lemma RecoverCounters(d: Db, rec: set<int>, op: Operation, now: nat)
    ensures Recover(d, rec, op, now).0.accountCounter == d.accountCounter
    ensures Recover(d, rec, op, now).0.operationCounter == d.operationCounter + (if op.Create? then 1 else 0)
  {
    match op
    case Create(_, account) =>
    case Movement(id, amount, finalBalance, account) =>
      var d1 := if account in rec then d else Restore(d, account, finalBalance, now);
      assert d1.accountCounter == d.accountCounter && d1.operationCounter == d.operationCounter;
    case Transfer(id, amount, from, to, finalFrom, finalTo) =>
      var d1 := if from in rec then d else Restore(d, from, finalFrom, now);
      var d2 := if to in rec then d1 else Restore(d1, to, finalTo, now);
      assert d1.accountCounter == d.accountCounter && d1.operationCounter == d.operationCounter;
      assert d2.accountCounter == d.accountCounter && d2.operationCounter == d.operationCounter;
  }

  /**
   * A replayed movement or transfer is logged under its own historical id,
   * and a replayed creation under the next operation id: each appends its
   * row when the keys allow and nothing otherwise.
   */
  lemma RecoverLogs(d: Db, rec: set<int>, op: Operation, now: nat)
    ensures var r := Recover(d, rec, op, now).0;
            match op
            case Create(_, account) =>
              r.rows == d.rows + [CreateRow(d.operationCounter, account, 0, now)] || r.rows == d.rows
            case Movement(id, amount, finalBalance, account) =>
              r.rows == d.rows + [MovementRow(id, amount, account, finalBalance, now)] || r.rows == d.rows
            case Transfer(id, amount, from, to, finalFrom, finalTo) =>
              r.rows == d.rows + [TransferRow(id, amount, from, to, finalFrom, finalTo, now)] || r.rows == d.rows
  {
    match op
    case Create(_, account) =>
      var d1 := if account in rec then d else AfterNewAccount(d, account, 0, true, now).0;
      assert d1.rows == d.rows && d1.operationCounter == d.operationCounter;
    case Movement(id, amount, finalBalance, account) =>
      var d1 := if account in rec then d else Restore(d, account, finalBalance, now);
      assert d1.rows == d.rows;
    case Transfer(id, amount, from, to, finalFrom, finalTo) =>
      var d1 := if from in rec then d else Restore(d, from, finalFrom, now);
      var d2 := if to in rec then d1 else Restore(d1, to, finalTo, now);
      assert d1.rows == d.rows && d2.rows == d.rows;
  }

  /** A replay step keeps the tables consistent. */
  lemma RecoverKeepsTables(d: Db, rec: set<int>, op: Operation, now: nat)
    requires Tables(d)
    ensures Tables(Recover(d, rec, op, now).0)
  {
    match op
    case Create(_, account) =>
      var d1 := if account in rec then d else AfterNewAccount(d, account, 0, true, now).0;
      NewAccountKeepsTables(d, account, 0, true, now);
      LogNewAccountKeepsTables(d1, account, 0, now);
    case Movement(id, amount, finalBalance, account) =>
      var d1 := if account in rec then d else Restore(d, account, finalBalance, now);
      RestoreKeepsTables(d, account, finalBalance, now);
      MovementKeepsTables(d1, id, amount, account, finalBalance, true, now);
    case Transfer(id, amount, from, to, finalFrom, finalTo) =>
      var d1 := if from in rec then d else Restore(d, from, finalFrom, now);
      var d2 := if to in rec then d1 else Restore(d1, to, finalTo, now);
      RestoreKeepsTables(d, from, finalFrom, now);
      RestoreKeepsTables(d1, to, finalTo, now);
      TransferKeepsTables(d2, id, amount, from, to, finalFrom, finalTo, true, now);
  }

  lemma RestoreKeepsTables(d: Db, a: int, v: int, now: nat)
    requires Tables(d)
    ensures Tables(Restore(d, a, v, now))
  {
    NewAccountKeepsTables(d, a, v, true, now);
    UpdateKeepsTables(d, a, v, now);
  }

  lemma {:induction false} ReplayKeepsTables(db: Db, ops: seq<Operation>, now: nat)
    requires Tables(db)
    ensures Tables(Replay(db, ops, now).0)
    decreases |ops|
  {
    if ops != [] {
      ReplayKeepsTables(db, ops[..|ops| - 1], now);
      var (d, rec) := Replay(db, ops[..|ops| - 1], now);
      RecoverKeepsTables(d, rec, ops[|ops| - 1], now);
    }
  }

  /**
   * With the corrected refresh, doRecovery ends with both counters past every
   * id in use, so the replica's next create and next logged operation take
   * unused ids. The source's refresh does not (`Data.RefreshAsWrittenReusesIds`).
   */
  lemma RecoveredIsFresh(db: Db, ops: seq<Operation>, now: nat)
    requires Tables(db)
    ensures Tables(Recovered(db, ops, now)) && CountersFresh(Recovered(db, ops, now))
  {
    ReplayKeepsTables(db, ops, now);
    RefreshedIsFresh(Replay(db, ops, now).0);
  }

  /** A bank replica over its DataAccess object. */
  class BankImpl {
    const database: DataAccess

    ghost predicate Valid()
      reads database, database.cache
    {
      database.Valid()
    }

    /** Used when not recovering: the bank works on the database as it is. */
    constructor (dataAccess: DataAccess)
      ensures database == dataAccess
    {
      database := dataAccess;
    }

    /** Used when recovering: the received operations are applied to the database. */
    constructor Recovering(dataAccess: DataAccess, operations: seq<Operation>, now: nat)
      requires dataAccess.Valid()
      modifies dataAccess, dataAccess.cache
      ensures database == dataAccess && Valid()
      ensures database.State() == Recovered(old(dataAccess.State()), operations, now)
    {
      database := dataAccess;
      new;
      DoRecovery(operations, now);
    }

    /** Replay the list in order, then refresh both counters (the corrected refresh). */
    method DoRecovery(opList: seq<Operation>, now: nat)
      requires Valid()
      modifies database, database.cache
      ensures Valid()
      ensures database.State() == Recovered(old(database.State()), opList, now)
    {
      ghost var start := database.State();
      var recovered: set<int> := {};
      var i := 0;
      while i < |opList|
        invariant 0 <= i <= |opList|
        invariant Valid()
        invariant (database.State(), recovered) == Replay(start, opList[..i], now)
      {
        assert opList[..i + 1][..i] == opList[..i];
        var operation := opList[i];
        if operation.Create? {
          recovered := RecoverCreateAccountOperation(recovered, operation, now);
        } else if operation.Movement? {
          recovered := RecoverMovementOperation(recovered, operation, now);
        } else {
          recovered := RecoverTransferOperation(recovered, operation, now);
        }
        i := i + 1;
      }
      assert opList[..i] == opList;
      ghost var replayed := database.State();
      RefreshedIsFresh(replayed);
      database.RefreshCurrentAccountId();
      database.RefreshCurrentOperationId();
      assert database.State() == Refreshed(replayed);
    }

    method RecoverCreateAccountOperation(recovered: set<int>, co: Operation, now: nat) returns (result: set<int>)
      requires Valid() && co.Create?
      modifies database, database.cache
      ensures Valid()
      ensures database.State() == Recover(old(database.State()), recovered, co, now).0
      ensures result == Recover(old(database.State()), recovered, co, now).1
    {
      ghost var s0 := database.State();
      result := recovered;
      if co.account !in recovered {
        result := recovered + {co.account};
        var _ := database.MakeNewAccount(co.account, 0, true, now);
      }
      ghost var s1 := database.State();
      assert s1 == (if co.account in recovered then s0 else AfterNewAccount(s0, co.account, 0, true, now).0);
      var _ := database.LogNewAccount(co.account, 0, now);
      assert result == recovered + {co.account};
    }

    /** The balance write of a first sighting. */
    method RestoreAccount(account: int, finalBalance: int, now: nat)
      requires Valid()
      modifies database, database.cache
      ensures Valid()
      ensures database.State() == Restore(old(database.State()), account, finalBalance, now)
    {
      var known := database.HasAccountId(account);
      if !known {
        var _ := database.MakeNewAccount(account, finalBalance, true, now);
      } else {
        database.UpdateBalance(account, finalBalance, now);
      }
    }

    method RecoverMovementOperation(recovered: set<int>, mo: Operation, now: nat) returns (result: set<int>)
      requires Valid() && mo.Movement?
      modifies database, database.cache
      ensures Valid()
      ensures database.State() == Recover(old(database.State()), recovered, mo, now).0
      ensures result == Recover(old(database.State()), recovered, mo, now).1
    {
      ghost var s0 := database.State();
      result := recovered;
      if mo.account !in recovered {
        RestoreAccount(mo.account, mo.finalBalance, now);
        result := recovered + {mo.account};
      }
      ghost var s1 := database.State();
      assert s1 == (if mo.account in recovered then s0 else Restore(s0, mo.account, mo.finalBalance, now));
      var _ := database.MakeMovement(mo.id, mo.amount, mo.account, mo.finalBalance, true, now);
      assert result == recovered + {mo.account};
    }

    method RecoverTransferOperation(recovered: set<int>, to: Operation, now: nat) returns (result: set<int>)
      requires Valid() && to.Transfer?
      modifies database, database.cache
      ensures Valid()
      ensures database.State() == Recover(old(database.State()), recovered, to, now).0
      ensures result == Recover(old(database.State()), recovered, to, now).1
    {
      ghost var s0 := database.State();
      var fromRecovered := to.from in recovered;
      var toRecovered := to.to in recovered;
      result := recovered;
      if !fromRecovered {
        RestoreAccount(to.from, to.finalFrom, now);
        result := result + {to.from};
      }
      ghost var s1 := database.State();
      assert s1 == (if fromRecovered then s0 else Restore(s0, to.from, to.finalFrom, now));
      if !toRecovered {
        RestoreAccount(to.to, to.finalTo, now);
        result := result + {to.to};
      }
      ghost var s2 := database.State();
      assert s2 == (if toRecovered then s1 else Restore(s1, to.to, to.finalTo, now));
      var _ := database.MakeTransfer(to.id, to.amount, to.from, to.to, to.finalFrom, to.finalTo, true, now);
      assert result == recovered + {to.from, to.to};
    }

    /** create: the generated account id. */
    method Create(now: nat) returns (id: int)
      requires Valid()
      modifies database, database.cache
      ensures Valid()
      ensures database.State() == Created(old(database.State()), now).0
      ensures id == Created(old(database.State()), now).1
    {
      id := database.MakeNewAccount(0, 0, false, now);
    }

    /** balance: never null; an unknown account reads as 0. */
    method Balance(account: int) returns (b: int)
      ensures b == AccountBalance(database.State(), account)
      ensures !HasAccount(database.State(), account) ==> b == 0
    {
      b := database.GetAccountBalance(account);
    }

    method Movement(account: int, amount: int, now: nat) returns (ok: bool)
      requires Valid()
      modifies database, database.cache
      ensures Valid()
      ensures database.State() == Moved(old(database.State()), account, amount, now).0
      ensures ok == Moved(old(database.State()), account, amount, now).1
    {
      var balance := database.GetAccountBalance(account);
      if MovementRejected(balance, amount) {
        return false;
      }
      var _ := database.MakeMovement(0, amount, account, amount + balance, false, now);
      ok := true;
    }

    method Transfer(origin: int, destination: int, amount: int, now: nat) returns (ok: bool)
      requires Valid()
      modifies database, database.cache
      ensures Valid()
      ensures database.State() == Transferred(old(database.State()), origin, destination, amount, now).0
      ensures ok == Transferred(old(database.State()), origin, destination, amount, now).1
    {
      ghost var s0 := database.State();
      var balanceFrom := database.GetAccountBalance(origin);
      var balanceTo := database.GetAccountBalance(destination);
      assert database.State() == s0;
      if TransferRejected(balanceFrom, amount) {
        return false;
      }
      var opId, finalFrom, finalTo, recovery := 0, balanceFrom - amount, balanceTo + amount, false;
      TransferredWith(s0, origin, destination, amount, now, finalFrom, finalTo, opId, recovery);
      var _ := database.MakeTransfer(opId, amount, origin, destination, finalFrom, finalTo, recovery, now);
      ok := true;
    }
  }
}
