/**
 * The wire vocabulary shared by replicas and client stubs: packet ids of the
 * form "<msgId>@<senderId>", the invocation commands, and packets.
 * Java object serialization of packets is not modelled: a packet is a value.
 */
module Communication {
  import opened Wrappers
  import BankOperations

  /** Decimal digit character for d. */
  function DigitChar(d: nat): (c: char)
    requires d < 10
    ensures '0' <= c <= '9'
    ensures DigitValue(c) == d
  {
    ('0' as int + d) as char
  }

  /** Numeric value of a decimal digit character (0 for any other character). */
  function DigitValue(c: char): nat
  {
    if '0' <= c <= '9' then c as int - '0' as int else 0
  }

  predicate IsDigits(s: string)
  {
    forall i :: 0 <= i < |s| ==> '0' <= s[i] <= '9'
  }

  /** Java's Integer.toString on a non-negative int: decimal, no leading zeros. */
  function NatToString(n: nat): (s: string)
    ensures |s| >= 1 && IsDigits(s)
    decreases n
  {
    if n < 10 then [DigitChar(n)] else NatToString(n / 10) + [DigitChar(n % 10)]
  }

  /** Value of a string of decimal digits, read left to right. */
  function ParseNat(s: string): nat
    decreases |s|
  {
    if s == [] then 0 else ParseNat(s[..|s| - 1]) * 10 + DigitValue(s[|s| - 1])
  }

  /** Rendering a number in decimal and reading it back gives the number. */
  lemma {:induction false} ParseNatToString(n: nat)
    ensures ParseNat(NatToString(n)) == n
    decreases n
  {
    if n >= 10 {
      var s := NatToString(n);
      assert s[..|s| - 1] == NatToString(n / 10);
      ParseNatToString(n / 10);
    }
  }

  /** Splits s at its first occurrence of sep. */
  function SplitAtFirst(s: string, sep: char): Option<(string, string)>
    decreases |s|
  {
    if s == [] then None
    else if s[0] == sep then Some(([], s[1..]))
    else match SplitAtFirst(s[1..], sep)
      case None => None
      case Some(parts) => Some(([s[0]] + parts.0, parts.1))
  }

  lemma {:induction false} SplitAtFirstJoin(p: string, sep: char, q: string)
    requires forall i :: 0 <= i < |p| ==> p[i] != sep
    ensures SplitAtFirst(p + [sep] + q, sep) == Some((p, q))
    decreases |p|
  {
    var s := p + [sep] + q;
    if p == [] {
      assert s[1..] == q;
    } else {
      assert s[1..] == p[1..] + [sep] + q;
      SplitAtFirstJoin(p[1..], sep, q);
      assert [p[0]] + p[1..] == p;
    }
  }

  /**
   * Reads a packet id back into the message counter and the sender id;
   * None when the id does not start with a digit string followed by '@'.
   */
  function SplitPacketId(id: string): Option<(nat, string)>
  {
    match SplitAtFirst(id, '@')
    case None => None
    case Some(parts) =>
      if parts.0 != [] && IsDigits(parts.0) then Some((ParseNat(parts.0), parts.1)) else None
  }

  /**
   * The packet id `msgId + "@" + senderId` built by Server.buildPacketId and
   * BankStub.buildPacketId. It determines both of its parts.
   */
  function PacketId(msgId: nat, sender: string): (id: string)
    ensures SplitPacketId(id) == Some((msgId, sender))
  {
    var digits := NatToString(msgId);
    SplitAtFirstJoin(digits, '@', sender);
    ParseNatToString(msgId);
    digits + "@" + sender
  }

  /** Two packet ids are equal exactly when their counters and senders are. */
  lemma PacketIdInjective(m1: nat, s1: string, m2: nat, s2: string)
    ensures PacketId(m1, s1) == PacketId(m2, s2) <==> m1 == m2 && s1 == s2
  {
    if PacketId(m1, s1) == PacketId(m2, s2) {
      assert SplitPacketId(PacketId(m1, s1)) == SplitPacketId(PacketId(m2, s2));
    }
  }

  /**
   * The commands of an Invocation with their arguments. The source dispatches
   * on the command string; any command name other than the five handled
   * ones (including "latest", which BankImpl does not implement) is OtherCmd.
   */
  datatype Invocation =
    | CreateCmd
    | BalanceCmd(account: int)
    | MovementCmd(account: int, amount: int)
    | TransferCmd(origin: int, destination: int, amount: int)
    | StateCmd(watermark: int)
    | OtherCmd(command: string)

  /** What a packet carries: an invocation, or a reply value (Null is Java's null). */
  datatype Content =
    | Call(invocation: Invocation)
    | Number(n: int)
    | Flag(b: bool)
    | OperationList(ops: seq<BankOperations.Operation>)
    | Null

  datatype Packet = Packet(id: string, content: Content)

  /** A delivered group message: a packet and the address of its sender. */
  datatype Message = Message(packet: Packet, sender: string)

  /** A send: multicast to the group (destination None) or point-to-point. */
  datatype Outgoing = Outgoing(packet: Packet, destination: Option<string>)
}
