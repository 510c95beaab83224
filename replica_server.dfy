/**
 * The replica coordinator. A replica is either serving (every delivered
 * invocation is answered by its bank) or recovering: it drops packets
 * until it sees its own state request come back through the group, then
 * queues them until a peer's answer arrives, replays that answer, and
 * serves the queue in arrival order. Group sends are appended to an
 * outbox; the clock is read once per delivered message and passed in.
 */
module Replica {
  import opened Wrappers
  import opened BankOperations
  import opened Communication
  import opened Data
  import opened Bank

  /** handleInvocation: one bank call per command, and the reply it yields. */
  function Answer(db: Db, inv: Invocation, now: nat): (Db, Content)
  {
    match inv
    case CreateCmd => (Created(db, now).0, Number(Created(db, now).1))
    case BalanceCmd(account) => (db, Number(AccountBalance(db, account)))
    case MovementCmd(account, amount) => (Moved(db, account, amount, now).0, Flag(Moved(db, account, amount, now).1))
    case StateCmd(watermark) => (db, OperationList(OperationsAfter(db, watermark)))
    case TransferCmd(origin, destination, amount) =>
      (Transferred(db, origin, destination, amount, now).0, Flag(Transferred(db, origin, destination, amount, now).1))
    case OtherCmd(_) => (db, Null)
  }

  /** handle: an invocation is answered to its sender under the packet's own id; anything else is ignored. */
  function Served(db: Db, outbox: seq<Outgoing>, m: Message, now: nat): (Db, seq<Outgoing>)
  {
    match m.packet.content
    case Call(inv) =>
      var (d, reply) := Answer(db, inv, now);
      (d, outbox + [Outgoing(Packet(m.packet.id, reply), Some(m.sender))])
    case _ => (db, outbox)
  }

  /** The messages of queue served in order. */
  function ServedAll(db: Db, outbox: seq<Outgoing>, queue: seq<Message>, now: nat): (Db, seq<Outgoing>)
    decreases |queue|
  {
    if queue == [] then (db, outbox)
    else
      var (d, out) := ServedAll(db, outbox, queue[..|queue| - 1], now);
      Served(d, out, queue[|queue| - 1], now)
  }

  /** The replica's fields as a value, with its database's state. */
  datatype ServerView = ServerView(bankId: string, msgId: nat, recover: bool, discard: bool,
                                   pending: seq<Message>, outbox: seq<Outgoing>, hasBank: bool, db: Db)

  /** recover: build the bank from the received operations, then serve the queue and leave recovery. */
  function Recovery(v: ServerView, ops: seq<Operation>, now: nat): ServerView
  {
    var (d, out) := ServedAll(Recovered(v.db, ops, now), v.outbox, v.pending, now);
    v.(db := d, outbox := out, pending := [], recover := false, hasBank := true)
  }

  /**
   * handleRecovery. A packet with the replica's current id is either its own
   * request (an invocation: stop discarding) or a peer's answer (advance
   * msgId, then recover). An answer that is not an operation list makes
   * the source's cast fail after msgId has advanced; the model stops there.
   * Any other packet is queued unless the replica is still discarding.
   */
  function OnRecovery(v: ServerView, m: Message, now: nat): ServerView
  {
    if m.packet.id == PacketId(v.msgId, v.bankId) then
      match m.packet.content
      case Call(_) => v.(discard := false)
      case OperationList(ops) => Recovery(v.(msgId := v.msgId + 1), ops, now)
      case _ => v.(msgId := v.msgId + 1)
    else if v.discard then v
    else v.(pending := v.pending + [m])
  }

  /** A peer's list of operations under the current id: msgId advances, then the replica recovers. */
  lemma RecoveryAnswer(v: ServerView, m: Message, ops: seq<Operation>, now: nat)
    requires m.packet.id == PacketId(v.msgId, v.bankId) && m.packet.content == OperationList(ops)
    ensures OnRecovery(v, m, now) == Recovery(v.(msgId := v.msgId + 1), ops, now)
  {
  }

  /** onMessage: route by mode. */
  function Delivered(v: ServerView, m: Message, now: nat): ServerView
  {
    if v.recover then OnRecovery(v, m, now)
    else
      var (d, out) := Served(v.db, v.outbox, m, now);
      v.(db := d, outbox := out)
  }

  /** Where each send goes: its packet id and its destination. */
  function Addresses(out: seq<Outgoing>): (r: seq<(string, Option<string>)>)
    ensures |r| == |out|
    ensures forall i :: 0 <= i < |out| ==> r[i] == (out[i].packet.id, out[i].destination)
  {
    seq(|out|, i requires 0 <= i < |out| => (out[i].packet.id, out[i].destination))
  }

  /** The reply address of each invocation in queue, in queue order. */
  function CallAddresses(queue: seq<Message>): seq<(string, Option<string>)>
    decreases |queue|
  {
    if queue == [] then []
    else
      var m := queue[|queue| - 1];
      CallAddresses(queue[..|queue| - 1]) + (if m.packet.content.Call? then [(m.packet.id, Some(m.sender))] else [])
  }

  /**
   * Serving a queue answers each queued invocation exactly once, in queue
   * order, to its sender and under its own packet id, and sends nothing else.
   */
  lemma {:induction false} ServedAllAnswersInOrder(db: Db, outbox: seq<Outgoing>, queue: seq<Message>, now: nat)
    ensures Addresses(ServedAll(db, outbox, queue, now).1) == Addresses(outbox) + CallAddresses(queue)
    decreases |queue|
  {
    if queue != [] {
      var init := queue[..|queue| - 1];
      var m := queue[|queue| - 1];
      ServedAllAnswersInOrder(db, outbox, init, now);
      var (d, out) := ServedAll(db, outbox, init, now);
      var out' := Served(d, out, m, now).1;
      if m.packet.content.Call? {
        assert Addresses(out') == Addresses(out) + [(m.packet.id, Some(m.sender))];
      }
    }
  }

  /**
   * A STATE request changes nothing and is answered with exactly the
   * operations logged with an id at least the watermark.
   */
  lemma StateAnswer(db: Db, watermark: int, now: nat)
    ensures var (d, reply) := Answer(db, StateCmd(watermark), now);
            && d == db && reply.OperationList?
            && forall op :: op in reply.ops <==> exists r :: r in db.rows && r.opId >= watermark && DecodeRow(r) == Some(op)
  {
    OperationsAfterExactly(db, watermark);
  }

  /** A movement either writes nothing or is the data layer's movement write for some final balance. */
  lemma MovedIsWrite(db: Db, account: int, amount: int, now: nat) returns (finalBalance: int)
    ensures var r := Moved(db, account, amount, now).0;
            r == db || r == AfterMovement(db, 0, amount, account, finalBalance, false, now).0
  {
    finalBalance := amount + AccountBalance(db, account);
  }

  /** A transfer either writes nothing or is the data layer's transfer write for some final balances. */
  lemma TransferredIsWrite(db: Db, origin: int, destination: int, amount: int, now: nat) returns (finalFrom: int, finalTo: int)
    ensures var r := Transferred(db, origin, destination, amount, now).0;
            r == db || r == AfterTransfer(db, 0, amount, origin, destination, finalFrom, finalTo, false, now).0
  {
    finalFrom := AccountBalance(db, origin) - amount;
    finalTo := AccountBalance(db, destination) + amount;
  }

  lemma AnswerKeepsTables(db: Db, inv: Invocation, now: nat)
    requires Tables(db)
    ensures Tables(Answer(db, inv, now).0)
  {
    match inv
    case CreateCmd =>
      NewAccountKeepsTables(db, 0, 0, false, now);
    case MovementCmd(account, amount) =>
      var finalBalance := MovedIsWrite(db, account, amount, now);
      MovementKeepsTables(db, 0, amount, account, finalBalance, false, now);
    case TransferCmd(origin, destination, amount) =>
      var finalFrom, finalTo := TransferredIsWrite(db, origin, destination, amount, now);
      TransferKeepsTables(db, 0, amount, origin, destination, finalFrom, finalTo, false, now);
    case _ =>
  }

  lemma {:induction false} ServedAllKeepsTables(db: Db, outbox: seq<Outgoing>, queue: seq<Message>, now: nat)
    requires Tables(db)
    ensures Tables(ServedAll(db, outbox, queue, now).0)
    decreases |queue|
  {
    if queue != [] {
      ServedAllKeepsTables(db, outbox, queue[..|queue| - 1], now);
      var m := queue[|queue| - 1];
      if m.packet.content.Call? {
        AnswerKeepsTables(ServedAll(db, outbox, queue[..|queue| - 1], now).0, m.packet.content.invocation, now);
      }
    }
  }

  /** Whatever is delivered, the replica's tables stay consistent. */
  lemma DeliveredKeepsTables(v: ServerView, m: Message, now: nat)
    requires Tables(v.db)
    ensures Tables(Delivered(v, m, now).db)
  {
    if v.recover {
      if m.packet.id == PacketId(v.msgId, v.bankId) && m.packet.content.OperationList? {
        RecoveredIsFresh(v.db, m.packet.content.ops, now);
        ServedAllKeepsTables(Recovered(v.db, m.packet.content.ops, now), v.outbox, v.pending, now);
      }
    } else if m.packet.content.Call? {
      AnswerKeepsTables(v.db, m.packet.content.invocation, now);
    }
  }

  /**
   * A peer's answer to the replica's current request ends recovery: msgId
   * advances once, the operations are replayed, every queued invocation is
   * answered in arrival order, and the queue is left empty.
   */
  lemma RecoveryCompletes(v: ServerView, m: Message, now: nat)
    requires v.recover && m.packet.id == PacketId(v.msgId, v.bankId) && m.packet.content.OperationList?
    ensures var w := Delivered(v, m, now);
            && w.msgId == v.msgId + 1 && !w.recover && w.hasBank && w.pending == []
            && w.discard == v.discard
            && Addresses(w.outbox) == Addresses(v.outbox) + CallAddresses(v.pending)
  {
    ServedAllAnswersInOrder(Recovered(v.db, m.packet.content.ops, now), v.outbox, v.pending, now);
  }

  /** The messages of ms delivered in order. */
  function DeliveredAll(v: ServerView, ms: seq<Message>, now: nat): ServerView
    decreases |ms|
  {
    if ms == [] then v else Delivered(DeliveredAll(v, ms[..|ms| - 1], now), ms[|ms| - 1], now)
  }

  /** One delivery to a recovering replica that is not a peer's answer to its current request. */
  lemma RecoveringStep(w: ServerView, m: Message, now: nat)
    requires w.recover
    requires m.packet.id != PacketId(w.msgId, w.bankId) || m.packet.content.Call?
    ensures Delivered(w, m, now)
            == if m.packet.id == PacketId(w.msgId, w.bankId) then w.(discard := false)
               else if w.discard then w
               else w.(pending := w.pending + [m])
  {
  }

  /**
   * There is no recovery timeout: as long as no peer answers the current
   * request, a recovering replica stays recovering, keeps its msgId and
   * changes no account, whatever else is delivered.
   */
  lemma {:induction false} NoRecoveryTimeout(v: ServerView, ms: seq<Message>, now: nat)
    requires v.recover
    requires forall i :: 0 <= i < |ms| ==> ms[i].packet.content.Call? || ms[i].packet.id != PacketId(v.msgId, v.bankId)
    ensures var w := DeliveredAll(v, ms, now);
            w.recover && w.bankId == v.bankId && w.msgId == v.msgId && w.db == v.db && w.outbox == v.outbox && w.hasBank == v.hasBank
    decreases |ms|
  {
    if ms != [] {
      var m := ms[|ms| - 1];
      assert m.packet.content.Call? || m.packet.id != PacketId(v.msgId, v.bankId);
      NoRecoveryTimeout(v, ms[..|ms| - 1], now);
      var w := DeliveredAll(v, ms[..|ms| - 1], now);
      assert DeliveredAll(v, ms, now) == Delivered(w, m, now);
      RecoveringStep(w, m, now);
    }
  }

  /**
   * Before its own request comes back, a recovering replica drops what it
   * is delivered; afterwards it queues it, in arrival order.
   */
  lemma {:induction false} RecoveringQueues(v: ServerView, ms: seq<Message>, now: nat)
    requires v.recover
    requires forall i :: 0 <= i < |ms| ==> ms[i].packet.id != PacketId(v.msgId, v.bankId)
    ensures var w := DeliveredAll(v, ms, now);
            && w.recover && w.bankId == v.bankId && w.msgId == v.msgId && w.discard == v.discard
            && w.pending == (if v.discard then v.pending else v.pending + ms)
    decreases |ms|
  {
    if ms != [] {
      var m := ms[|ms| - 1];
      assert m.packet.id != PacketId(v.msgId, v.bankId);
      RecoveringQueues(v, ms[..|ms| - 1], now);
      var w := DeliveredAll(v, ms[..|ms| - 1], now);
      assert DeliveredAll(v, ms, now) == Delivered(w, m, now);
      RecoveringStep(w, m, now);
      assert ms == ms[..|ms| - 1] + [m];
    }
  }

  /**
   * A serving replica answers an invocation with exactly one reply to its
   * sender under the request's id, and ignores anything else, including
   * duplicate answers to an earlier state request.
   */
  lemma ServingRepliesOnce(v: ServerView, m: Message, now: nat)
    requires !v.recover
    ensures var w := Delivered(v, m, now);
            && w.msgId == v.msgId && w.pending == v.pending && !w.recover
            && (m.packet.content.Call? ==>
                  |w.outbox| == |v.outbox| + 1 && w.outbox[..|v.outbox|] == v.outbox
                  && w.outbox[|v.outbox|].packet.id == m.packet.id
                  && w.outbox[|v.outbox|].destination == Some(m.sender))
            && (!m.packet.content.Call? ==> w == v)
  {
  }

  /** work: a recovering replica multicasts STATE with its last logged operation id as watermark. */
  function Requested(v: ServerView): ServerView
  {
    if v.recover then
      v.(outbox := v.outbox + [Outgoing(Packet(PacketId(v.msgId, v.bankId), Call(StateCmd(LastIdOr1(OpIds(v.db.rows))))), None)])
    else v
  }

  /**
   * A whole recovery. A replica that starts discarding with an empty queue
   * sends its state request; whatever arrives before the request's own echo
   * is dropped; what arrives after it is queued; the first peer answer
   * ends recovery, and the queued invocations are then answered in arrival
   * order after the request.
   */
  lemma RecoveryRun(v: ServerView, self: string, early: seq<Message>, late: seq<Message>, ops: seq<Operation>,
                    peer: string, now: nat)
    requires v.recover && v.discard && v.pending == []
    requires forall i :: 0 <= i < |early| ==> early[i].packet.id != PacketId(v.msgId, v.bankId)
    requires forall i :: 0 <= i < |late| ==> late[i].packet.id != PacketId(v.msgId, v.bankId)
    ensures var s := Requested(v);
            var echo := Message(s.outbox[|v.outbox|].packet, self);
            var answer := Message(Packet(PacketId(v.msgId, v.bankId), OperationList(ops)), peer);
            var w := Delivered(DeliveredAll(Delivered(DeliveredAll(s, early, now), echo, now), late, now), answer, now);
            && !w.recover && w.hasBank && w.pending == [] && w.msgId == v.msgId + 1
            && Addresses(w.outbox) == Addresses(s.outbox) + CallAddresses(late)
  {
    var s := Requested(v);
    var echo := Message(s.outbox[|v.outbox|].packet, self);
    var answer := Message(Packet(PacketId(v.msgId, v.bankId), OperationList(ops)), peer);
    RecoveringQueues(s, early, now);
    var s1 := DeliveredAll(s, early, now);
    assert s1.outbox == s.outbox by { NoRecoveryTimeout(s, early, now); }
    var s2 := Delivered(s1, echo, now);
    assert s2 == s1.(discard := false);
    RecoveringQueues(s2, late, now);
    NoRecoveryTimeout(s2, late, now);
    var s3 := DeliveredAll(s2, late, now);
    assert s3.pending == late;
    RecoveryCompletes(s3, answer, now);
  }

  /** The replica: its mode, its message counter, its queue and its database. */
  class Server {
    const bankId: string
    const da: DataAccess
    var bank: BankImpl?
    var msgId: nat
    var recover: bool
    var discard: bool
    var pendingRequests: seq<Message>
    /** Packets handed to the group, in sending order. */
    var outbox: seq<Outgoing>

    function View(): ServerView
      reads this, da, da.cache
    {
      ServerView(bankId, msgId, recover, discard, pendingRequests, outbox, bank != null, da.State())
    }

    ghost predicate Valid()
      reads this, da, da.cache, bank
    {
      && da.Valid()
      && (bank != null ==> bank.database == da)
      && (!recover ==> bank != null)
    }

    /**
     * A replica that is not recovering builds its bank on the database as
     * it is; a recovering one has no bank yet and starts by discarding.
     */
    constructor (bankId: string, recover: bool, dataAccess: DataAccess)
      requires dataAccess.Valid()
      ensures Valid() && da == dataAccess
      ensures View() == ServerView(bankId, 0, recover, recover, [], [], !recover, dataAccess.State())
    {
      this.bankId := bankId;
      da := dataAccess;
      msgId := 0;
      this.recover := recover;
      discard := recover;
      pendingRequests := [];
      outbox := [];
      if !recover {
        bank := new BankImpl(dataAccess);
      } else {
        bank := null;
      }
    }

    /** sendRequest: multicast an invocation under the current packet id; msgId is not advanced. */
    method SendRequest(inv: Invocation)
      modifies this
      ensures View() == old(View()).(outbox := old(outbox) + [Outgoing(Packet(PacketId(msgId, bankId), Call(inv)), None)])
      ensures bank == old(bank)
    {
      outbox := outbox + [Outgoing(Packet(PacketId(msgId, bankId), Call(inv)), None)];
    }

    /** work: a recovering replica asks the group for the operations from its last logged one on. */
    method RequestState()
      modifies this
      ensures View() == Requested(old(View()))
      ensures bank == old(bank)
    {
      if recover {
        var watermark := da.CurrentOperationId();
        SendRequest(StateCmd(watermark));
      }
    }

    /** handleInvocation: run the command on the bank, or read the log for STATE. */
    method HandleInvocation(inv: Invocation, now: nat) returns (reply: Content)
      requires Valid() && bank != null
      modifies da, da.cache
      ensures Valid()
      ensures da.State() == Answer(old(da.State()), inv, now).0
      ensures reply == Answer(old(da.State()), inv, now).1
    {
      match inv
      case CreateCmd =>
        var id := bank.Create(now);
        reply := Number(id);
      case BalanceCmd(account) =>
        var b := bank.Balance(account);
        reply := Number(b);
      case MovementCmd(account, amount) =>
        var ok := bank.Movement(account, amount, now);
        reply := Flag(ok);
      case StateCmd(watermark) =>
        var ops := da.GetOperationsAfter(watermark);
        reply := OperationList(ops);
      case TransferCmd(origin, destination, amount) =>
        var ok := bank.Transfer(origin, destination, amount, now);
        reply := Flag(ok);
      case OtherCmd(_) =>
        reply := Null;
    }

    /** handle: answer an invocation to its sender under the packet's id; ignore anything else. */
    method Handle(m: Message, now: nat)
      requires Valid() && bank != null
      modifies this, da, da.cache
      ensures Valid() && bank == old(bank)
      ensures da.State() == Served(old(da.State()), old(outbox), m, now).0
      ensures outbox == Served(old(da.State()), old(outbox), m, now).1
      ensures msgId == old(msgId) && recover == old(recover) && discard == old(discard)
      ensures pendingRequests == old(pendingRequests)
    {
      match m.packet.content
      case Call(inv) =>
        var reply := HandleInvocation(inv, now);
        outbox := outbox + [Outgoing(Packet(m.packet.id, reply), Some(m.sender))];
      case _ =>
    }

    /** recover's loop: take each queued message in arrival order and handle it. */
    method ServeQueue(now: nat)
      requires Valid() && bank != null
      modifies this, da, da.cache
      ensures Valid() && bank == old(bank) && pendingRequests == []
      ensures da.State() == ServedAll(old(da.State()), old(outbox), old(pendingRequests), now).0
      ensures outbox == ServedAll(old(da.State()), old(outbox), old(pendingRequests), now).1
      ensures msgId == old(msgId) && recover == old(recover) && discard == old(discard)
    {
      ghost var start := da.State();
      ghost var sent := outbox;
      ghost var queue := pendingRequests;
      ghost var served := 0;
      while pendingRequests != []
        invariant Valid() && bank == old(bank)
        invariant served <= |queue| && pendingRequests == queue[served..]
        invariant (da.State(), outbox) == ServedAll(start, sent, queue[..served], now)
        invariant msgId == old(msgId) && recover == old(recover) && discard == old(discard)
        decreases |pendingRequests|
      {
        var queued := pendingRequests[0];
        pendingRequests := pendingRequests[1..];
        assert queue[..served + 1] == queue[..served] + [queued];
        Handle(queued, now);
        served := served + 1;
      }
      assert queue[..served] == queue;
    }

    /** recover: build the bank from the operations, serve the queue in arrival order, leave recovery. */
    method Recover(transactions: seq<Operation>, now: nat)
      requires Valid()
      modifies this, da, da.cache
      ensures Valid()
      ensures View() == Recovery(old(View()), transactions, now)
    {
      ghost var v := View();
      bank := new BankImpl.Recovering(da, transactions, now);
      assert da.State() == Recovered(v.db, transactions, now);
      ServeQueue(now);
      recover := false;
    }

    /** handleRecovery: the replica's own request, a peer's answer, or a packet to drop or queue. */
    method HandleRecovery(m: Message, now: nat)
      requires Valid() && recover
      modifies this, da, da.cache
      ensures Valid()
      ensures View() == OnRecovery(old(View()), m, now)
    {
      ghost var v := View();
      if m.packet.id == PacketId(msgId, bankId) {
        match m.packet.content
        case Call(_) =>
          discard := false;
        case OperationList(ops) =>
          msgId := msgId + 1;
          ghost var w := v.(msgId := v.msgId + 1);
          assert View() == w;
          RecoveryAnswer(v, m, ops, now);
          Recover(ops, now);
        case _ =>
          msgId := msgId + 1;
      } else if !discard {
        pendingRequests := pendingRequests + [m];
      }
    }

    /** onMessage: route by mode. */
    method OnMessage(m: Message, now: nat)
      requires Valid()
      modifies this, da, da.cache
      ensures Valid()
      ensures View() == Delivered(old(View()), m, now)
    {
      if recover {
        HandleRecovery(m, now);
      } else {
        Handle(m, now);
      }
    }
  }
}
