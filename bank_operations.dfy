/**
 * Value types of the bank package: the account snapshot that the balance
 * cache holds, and the three kinds of logged operation. The source keeps
 * account numbers as decimal strings; the model keeps them as integers.
 */
module BankOperations {

  /** An account id with its balance, as cached by the data layer. */
  datatype Account = Account(id: int, balance: int)

  /** One logged operation, with the resulting balances it recorded. */
  datatype Operation =
    | Create(id: int, account: int)
    | Movement(id: int, amount: int, finalBalance: int, account: int)
    | Transfer(id: int, amount: int, from: int, to: int, finalFrom: int, finalTo: int)

  /** Whether op touches account a. */
  predicate Mentions(op: Operation, a: int)
  {
    match op
    case Create(_, account) => account == a
    case Movement(_, _, _, account) => account == a
    case Transfer(_, _, from, to, _, _) => from == a || to == a
  }

  /**
   * The balance op records for a: 0 for a creation, the final balance of a
   * movement, and for a transfer the destination's figure when a is the
   * destination (recovery writes the origin first, then the destination).
   */
  function Recorded(op: Operation, a: int): int
    requires Mentions(op, a)
  {
    match op
    case Create(_, _) => 0
    case Movement(_, _, finalBalance, _) => finalBalance
    case Transfer(_, _, _, to, finalFrom, finalTo) => if a == to then finalTo else finalFrom
  }

  predicate Mentioned(ops: seq<Operation>, a: int)
  {
    exists i :: 0 <= i < |ops| && Mentions(ops[i], a)
  }

  /** The first entry of ops that touches a. */
  function FirstMention(ops: seq<Operation>, a: int): (op: Operation)
    requires Mentioned(ops, a)
    ensures Mentions(op, a)
    decreases |ops|
  {
    if Mentions(ops[0], a) then ops[0]
    else
      assert Mentioned(ops[1..], a) by {
        var i :| 0 <= i < |ops| && Mentions(ops[i], a);
        assert ops[1..][i - 1] == ops[i];
      }
      FirstMention(ops[1..], a)
  }

  /** The last entry of ops that touches a. */
  function LastMention(ops: seq<Operation>, a: int): (op: Operation)
    requires Mentioned(ops, a)
    ensures Mentions(op, a)
    decreases |ops|
  {
    var n := |ops| - 1;
    if Mentions(ops[n], a) then ops[n]
    else
      assert Mentioned(ops[..n], a) by {
        var i :| 0 <= i < |ops| && Mentions(ops[i], a);
        assert ops[..n][i] == ops[i];
      }
      LastMention(ops[..n], a)
  }

  /** FirstMention is the entry at the least index that touches a. */
  lemma {:induction false} FirstMentionIsFirst(ops: seq<Operation>, a: int)
    requires Mentioned(ops, a)
    ensures exists i :: 0 <= i < |ops| && ops[i] == FirstMention(ops, a)
                        && forall j :: 0 <= j < i ==> !Mentions(ops[j], a)
    decreases |ops|
  {
    if !Mentions(ops[0], a) {
      var i :| 0 <= i < |ops| && Mentions(ops[i], a);
      assert ops[1..][i - 1] == ops[i];
      FirstMentionIsFirst(ops[1..], a);
      var k :| 0 <= k < |ops[1..]| && ops[1..][k] == FirstMention(ops[1..], a)
               && forall j :: 0 <= j < k ==> !Mentions(ops[1..][j], a);
      assert ops[k + 1] == FirstMention(ops, a);
      forall j | 0 <= j < k + 1 ensures !Mentions(ops[j], a) {
        if j > 0 { assert ops[j] == ops[1..][j - 1]; }
      }
    }
  }

  /** Appending an entry does not change the first mention of an account already mentioned. */
  lemma {:induction false} FirstMentionAppend(ops: seq<Operation>, op: Operation, a: int)
    requires Mentioned(ops + [op], a)
    ensures Mentioned(ops, a) ==> FirstMention(ops + [op], a) == FirstMention(ops, a)
    ensures !Mentioned(ops, a) ==> FirstMention(ops + [op], a) == op
    decreases |ops|
  {
    var s := ops + [op];
    if ops == [] {
      assert s == [op];
    } else if Mentions(ops[0], a) {
      assert s[0] == ops[0];
    } else {
      assert s[0] == ops[0];
      assert s[1..] == ops[1..] + [op];
      assert Mentioned(ops, a) <==> Mentioned(ops[1..], a) by {
        if Mentioned(ops, a) {
          var i :| 0 <= i < |ops| && Mentions(ops[i], a);
          assert ops[1..][i - 1] == ops[i];
        }
        if Mentioned(ops[1..], a) {
          var i :| 0 <= i < |ops[1..]| && Mentions(ops[1..][i], a);
          assert ops[i + 1] == ops[1..][i];
        }
      }
      MentionedAppend(ops, op, a);
      assert Mentioned(ops[1..] + [op], a) by {
        var i :| 0 <= i < |s| && Mentions(s[i], a);
        assert s[1..][i - 1] == s[i];
      }
      FirstMentionAppend(ops[1..], op, a);
    }
  }

  /** An account is mentioned by ops + [op] when ops or op mentions it. */
  lemma MentionedAppend(ops: seq<Operation>, op: Operation, a: int)
    ensures Mentioned(ops + [op], a) <==> Mentioned(ops, a) || Mentions(op, a)
  {
    var s := ops + [op];
    if Mentioned(ops, a) {
      var i :| 0 <= i < |ops| && Mentions(ops[i], a);
      assert s[i] == ops[i];
    }
    if Mentions(op, a) {
      assert s[|ops|] == op;
    }
    if Mentioned(s, a) && !Mentions(op, a) {
      var i :| 0 <= i < |s| && Mentions(s[i], a);
      assert ops[i] == s[i];
    }
  }

  /** The entries of s in the opposite order. */
  function Reverse<T>(s: seq<T>): (r: seq<T>)
    ensures |r| == |s|
    ensures forall i :: 0 <= i < |s| ==> r[i] == s[|s| - 1 - i]
    decreases |s|
  {
    if s == [] then [] else [s[|s| - 1]] + Reverse(s[..|s| - 1])
  }

  /**
   * Read newest-first, the first entry touching an account is the last one
   * logged for it: this is what makes the first-sighting rule of the
   * recovery replay pick up the latest balance.
   */
  lemma {:induction false} FirstOfReverseIsLast(ops: seq<Operation>, a: int)
    requires Mentioned(ops, a)
    ensures Mentioned(Reverse(ops), a)
    ensures FirstMention(Reverse(ops), a) == LastMention(ops, a)
    decreases |ops|
  {
    var r := Reverse(ops);
    var n := |ops| - 1;
    var i :| 0 <= i < |ops| && Mentions(ops[i], a);
    assert r[n - i] == ops[i];
    assert Mentioned(r, a);
    if !Mentions(ops[n], a) {
      assert r[0] == ops[n];
      assert Mentioned(ops[..n], a) by { assert ops[..n][i] == ops[i]; }
      assert r[1..] == Reverse(ops[..n]);
      FirstOfReverseIsLast(ops[..n], a);
    }
  }
}
