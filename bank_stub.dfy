/**
 * The client-side stub. Every request is multicast to the group under the
 * id "msgId@stubId" after msgId is advanced; a delivered packet becomes the
 * reply only when it is not an invocation and carries the id of the
 * request in flight. Group sends are appended to an outbox.
 */
module Client {
  import opened Wrappers
  import opened Communication
  import opened Data
  import opened Replica

  /** onMessage's test: a reply (not an invocation) to the request numbered msgId. */
  predicate Accepts(p: Packet, msgId: nat, stubId: string)
  {
    !p.content.Call? && p.id == PacketId(msgId, stubId)
  }

  /**
   * Only the answer to the request in flight is taken: an answer to an
   * earlier request of this stub, an answer to another stub, and the
   * stub's own request coming back through the group are all ignored.
   */
  lemma OnlyCurrentReplyAccepted(p: Packet, msgId: nat, stubId: string, k: nat, other: string)
    ensures p.id == PacketId(k, stubId) && k != msgId ==> !Accepts(p, msgId, stubId)
    ensures p.id == PacketId(msgId, other) && other != stubId ==> !Accepts(p, msgId, stubId)
    ensures p.content.Call? ==> !Accepts(p, msgId, stubId)
    ensures !p.content.Call? && p.id == PacketId(msgId, stubId) ==> Accepts(p, msgId, stubId)
  {
    PacketIdInjective(k, stubId, msgId, stubId);
    PacketIdInjective(msgId, other, msgId, stubId);
  }

  /** The ids a stub has used after its first n requests, in order. */
  predicate NumberedFrom1(outbox: seq<Outgoing>, stubId: string)
  {
    forall i :: 0 <= i < |outbox| ==> outbox[i].packet.id == PacketId(i + 1, stubId)
  }

  /** No two requests of a stub share an id, and none uses id 0. */
  lemma SentIdsDistinct(outbox: seq<Outgoing>, stubId: string)
    requires NumberedFrom1(outbox, stubId)
    ensures forall i, j :: 0 <= i < j < |outbox| ==> outbox[i].packet.id != outbox[j].packet.id
    ensures forall i :: 0 <= i < |outbox| ==> outbox[i].packet.id != PacketId(0, stubId)
  {
    forall i, j | 0 <= i < j < |outbox| ensures outbox[i].packet.id != outbox[j].packet.id {
      PacketIdInjective(i + 1, stubId, j + 1, stubId);
    }
    forall i | 0 <= i < |outbox| ensures outbox[i].packet.id != PacketId(0, stubId) {
      PacketIdInjective(i + 1, stubId, 0, stubId);
    }
  }

  /** A replica's answer is never an invocation. */
  lemma AnswerIsReply(db: Db, inv: Invocation, now: nat)
    ensures !Answer(db, inv, now).1.Call?
  {
  }

  /**
   * A serving replica's answer to the stub's request in flight is accepted
   * by the stub, whichever invocation it was.
   */
  lemma ServedReplyAccepted(v: ServerView, stubId: string, msgId: nat, inv: Invocation, sender: string, now: nat)
    requires !v.recover
    ensures var w := Delivered(v, Message(Packet(PacketId(msgId, stubId), Call(inv)), sender), now);
            && |w.outbox| == |v.outbox| + 1
            && w.outbox[|v.outbox|].destination == Some(sender)
            && Accepts(w.outbox[|v.outbox|].packet, msgId, stubId)
  {
    AnswerIsReply(v.db, inv, now);
  }

  /** The last reply among ms to the request numbered msgId, or current when there is none. */
  function LastAccepted(ms: seq<Message>, msgId: nat, stubId: string, current: Content): (r: Content)
    ensures r == current || exists i :: 0 <= i < |ms| && Accepts(ms[i].packet, msgId, stubId) && r == ms[i].packet.content
    decreases |ms|
  {
    if ms == [] then current
    else
      var m := ms[|ms| - 1];
      if Accepts(m.packet, msgId, stubId) then m.packet.content
      else LastAccepted(ms[..|ms| - 1], msgId, stubId, current)
  }

  class BankStub {
    const stubId: string
    var msgId: nat
    var reply: Content
    /** Packets handed to the group, in sending order. */
    var outbox: seq<Outgoing>

    ghost predicate Valid()
      reads this
    {
      msgId == |outbox| && NumberedFrom1(outbox, stubId)
    }

    constructor (stubId: string)
      ensures Valid()
      ensures this.stubId == stubId && msgId == 0 && reply == Null && outbox == []
    {
      this.stubId := stubId;
      msgId := 0;
      reply := Null;
      outbox := [];
    }

    /** sendRequest: advance msgId, then multicast the invocation under the new id. */
    method SendRequest(inv: Invocation)
      requires Valid()
      modifies this
      ensures Valid()
      ensures msgId == old(msgId) + 1 && reply == old(reply)
      ensures outbox == old(outbox) + [Outgoing(Packet(PacketId(msgId, stubId), Call(inv)), None)]
    {
      msgId := msgId + 1;
      outbox := outbox + [Outgoing(Packet(PacketId(msgId, stubId), Call(inv)), None)];
    }

    /** onMessage: keep the packet's content as the reply when it answers the request in flight. */
    method OnMessage(m: Message)
      modifies this
      ensures msgId == old(msgId) && outbox == old(outbox)
      ensures reply == if Accepts(m.packet, msgId, stubId) then m.packet.content else old(reply)
    {
      if !m.packet.content.Call? && m.packet.id == PacketId(msgId, stubId) {
        reply := m.packet.content;
      }
    }

    /**
     * invoke: send the request, then take the messages delivered before the
     * reply is read; the result is the last of them that answers this
     * request, or the previous reply when none does.
     */
    method Invoke(inv: Invocation, delivered: seq<Message>) returns (r: Content)
      requires Valid()
      modifies this
      ensures Valid() && msgId == old(msgId) + 1
      ensures outbox == old(outbox) + [Outgoing(Packet(PacketId(msgId, stubId), Call(inv)), None)]
      ensures r == reply == LastAccepted(delivered, msgId, stubId, old(reply))
    {
      SendRequest(inv);
      var i := 0;
      while i < |delivered|
        invariant 0 <= i <= |delivered|
        invariant Valid() && msgId == old(msgId) + 1
        invariant outbox == old(outbox) + [Outgoing(Packet(PacketId(msgId, stubId), Call(inv)), None)]
        invariant reply == LastAccepted(delivered[..i], msgId, stubId, old(reply))
      {
        OnMessage(delivered[i]);
        assert delivered[..i + 1][..i] == delivered[..i];
        i := i + 1;
      }
      assert delivered[..i] == delivered;
      r := reply;
    }

    /** transfer is not implemented by the stub: it sends nothing and answers false. */
    method Transfer(origin: int, destination: int, amount: int) returns (ok: bool)
      ensures !ok
    {
      ok := false;
    }
  }
}
