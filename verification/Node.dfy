/**
 The gRPC node as an adversary. Between any two calls, and inside every call,
 transactions in flight may land in any admissible order and with any result code.
 Every query may fail, a failed broadcast may have reached the network, and an
 account query may return a sequence the account has already passed.
 */
module Node {
  import opened Wrappers
  import opened Ledger

  /** Outcome of a broadcast: the node's check code, or an error text. */
  datatype BroadcastReply = Checked(code: nat, text: string) | Unreachable(text: string)

  /** A query for a transaction, with its answer. */
  datatype Fetch = Fetch(tx: Tx, answer: Result<nat, string>)

  class Node {
    var ledger: Ledger
    /** The last answers about the account and to a broadcast, and all queries for transactions. */
    ghost var lastAccount: Result<nat, string>
    ghost var lastReply: BroadcastReply
    ghost var fetches: seq<Fetch>

    constructor (base: nat)
      ensures ledger == Ledger(base, [], []) && Sound(ledger)
    {
      ledger := Ledger(base, [], []);
      lastAccount, lastReply, fetches := Err(""), Unreachable(""), [];
    }

    /** Time passes: the adversary lands whatever it likes. */
    method Elapse()
      requires Sound(ledger)
      modifies this`ledger
      ensures Settles(old(ledger), ledger) && Sound(ledger)
    {
      var blocks: nat :| 0 <= blocks;
      while blocks > 0
        invariant Settles(old(ledger), ledger) && Sound(ledger)
      {
        var k: nat :| 0 <= k;
        var code: nat :| 0 <= code;
        if k < |ledger.sent| && ledger.sent[k].tx.sequence == ledger.Sequence() {
          ghost var before := ledger;
          ledger := ledger.(log := ledger.log + [Landing(ledger.sent[k].tx, code)]);
          assert SentBefore(before, before.sent[k].tx, |before.log|);
          SettlesKeepsSound(before, ledger);
        }
        blocks := blocks - 1;
      }
    }

    /** Any error, or a sequence that is possibly stale but never ahead of the account. */
    method GetAccount() returns (r: Result<nat, string>)
      requires Sound(ledger)
      modifies this`ledger, this`lastAccount
      ensures Settles(old(ledger), ledger) && Sound(ledger) && lastAccount == r
      ensures r.Ok? ==> r.value <= ledger.Sequence()
    {
      Elapse();
      var text: string := *;
      var answered: bool := *;
      var lag: nat :| 0 <= lag;
      if answered && lag <= ledger.Sequence() {
        r := Ok(ledger.Sequence() - lag);
      } else {
        r := Err(text);
      }
      lastAccount := r;
    }

    /** The transaction is in flight from here on, whatever the reply says. */
    method Broadcast(tx: Tx, call: nat) returns (r: BroadcastReply)
      requires Sound(ledger) && tx.sequence <= ledger.Sequence()
      modifies this`ledger, this`lastReply
      ensures Settles(Send(old(ledger), tx, call), ledger) && Sound(ledger) && lastReply == r
    {
      SendKeepsSound(ledger, tx, call);
      ledger := Send(ledger, tx, call);
      Elapse();
      r := *;
      lastReply := r;
    }

    /** Any error, or the code with which exactly this transaction landed. */
    method GetTx(tx: Tx) returns (r: Result<nat, string>)
      requires Sound(ledger)
      modifies this`ledger, this`fetches
      ensures Settles(old(ledger), ledger) && Sound(ledger) && fetches == old(fetches) + [Fetch(tx, r)]
      ensures r.Ok? ==> ledger.Landed(tx, r.value)
    {
      Elapse();
      var text: string := *;
      var i: nat :| 0 <= i;
      if i < |ledger.log| && ledger.log[i].tx == tx {
        r := Ok(ledger.log[i].code);
        assert ledger.log[i] == Landing(tx, r.value);
      } else {
        r := Err(text);
      }
      fetches := fetches + [Fetch(tx, r)];
    }
  }
}
