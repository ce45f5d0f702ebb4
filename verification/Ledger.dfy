/**
 The chain as one feeder account sees it: an account sequence, the transactions
 signed so far, and the ones that have landed. A transaction lands only when its
 sequence equals the account's; landing consumes the sequence whether or not the
 messages execute (code 0). Anything signed may stay in flight forever or land
 at any later time.
 */
module Ledger {
  import opened Wrappers

  /** Messages that the feeder puts in transactions. */
  datatype Msg =
    | PrevoteMsg(hash: string, validator: string)
    | VoteMsg(salt: string, rates: string, validator: string)

  datatype Tx = Tx(sequence: nat, msgs: seq<Msg>)

  datatype Landing = Landing(tx: Tx, code: nat)

  /** A signed transaction, the number of landings when it was handed to the network,
      and the number of the submission call that signed it. */
  datatype Sent = Sent(tx: Tx, seen: nat, call: nat)

  /** `base` is the account sequence before the first landing. */
  datatype Ledger = Ledger(base: nat, log: seq<Landing>, sent: seq<Sent>) {
    function Sequence(): nat { base + |log| }

    predicate Landed(tx: Tx, code: nat) { Landing(tx, code) in log }
  }

  // ---------- what the chain may do ----------

  /** `tx` was handed to the network when no more than `i` transactions had landed. */
  ghost predicate SentBefore(c: Ledger, tx: Tx, i: nat) {
    exists k :: 0 <= k < |c.sent| && c.sent[k].tx == tx && c.sent[k].seen <= i
  }

  /** The history of a ledger is possible: every landing used its own sequence number
      and had been sent before, no signed sequence exceeded the account's at the time. */
  ghost predicate Sound(c: Ledger) {
    && (forall i :: 0 <= i < |c.log| ==> c.log[i].tx.sequence == c.base + i)
    && (forall i :: 0 <= i < |c.log| ==> SentBefore(c, c.log[i].tx, i))
    && (forall k :: 0 <= k < |c.sent| ==>
          c.sent[k].seen <= |c.log| && c.sent[k].tx.sequence <= c.base + c.sent[k].seen)
  }

  /** Some transactions land (possibly none) and nothing is signed. */
  ghost predicate Settles(c: Ledger, c': Ledger) {
    && c'.base == c.base
    && c'.sent == c.sent
    && c.log <= c'.log
    && forall i :: |c.log| <= i < |c'.log| ==>
         c'.log[i].tx.sequence == c.base + i && SentBefore(c, c'.log[i].tx, i)
  }

  /** Some transactions land and all that is signed carries exactly `msgs`, for call `call`. */
  ghost predicate Evolves(c: Ledger, c': Ledger, msgs: seq<Msg>, call: nat) {
    && Sound(c')
    && c'.base == c.base
    && c.log <= c'.log
    && c.sent <= c'.sent
    && forall k :: |c.sent| <= k < |c'.sent| ==>
         c'.sent[k].tx.msgs == msgs && c'.sent[k].call == call && |c.log| <= c'.sent[k].seen
  }

  lemma SettlesKeepsSound(c: Ledger, c': Ledger)
    requires Sound(c) && Settles(c, c')
    ensures Sound(c')
  {
    forall i | 0 <= i < |c'.log|
      ensures c'.log[i].tx.sequence == c'.base + i && SentBefore(c', c'.log[i].tx, i)
    {
      if i < |c.log| {
        assert c'.log[i] == c.log[i];
      }
    }
  }

  /** Landing alone is the special case of evolving in which nothing is signed. */
  lemma SettlesEvolves(c: Ledger, c': Ledger, msgs: seq<Msg>, call: nat)
    requires Sound(c) && Settles(c, c')
    ensures Evolves(c, c', msgs, call)
  {
    SettlesKeepsSound(c, c');
  }

  function Send(c: Ledger, tx: Tx, call: nat): Ledger {
    c.(sent := c.sent + [Sent(tx, |c.log|, call)])
  }

  lemma SendKeepsSound(c: Ledger, tx: Tx, call: nat)
    requires Sound(c) && tx.sequence <= c.Sequence()
    ensures Sound(Send(c, tx, call))
    ensures Evolves(c, Send(c, tx, call), tx.msgs, call)
  {
    var c' := Send(c, tx, call);
    forall i | 0 <= i < |c'.log| ensures SentBefore(c', c'.log[i].tx, i) {
      var k :| 0 <= k < |c.sent| && c.sent[k].tx == c.log[i].tx && c.sent[k].seen <= i;
      assert c'.sent[k] == c.sent[k];
    }
  }

  lemma SettlesTransitive(a: Ledger, b: Ledger, c: Ledger)
    requires Settles(a, b) && Settles(b, c)
    ensures Settles(a, c)
  {
    forall i | |a.log| <= i < |c.log| ensures c.log[i].tx.sequence == a.base + i && SentBefore(a, c.log[i].tx, i) {
      if i < |b.log| {
        assert c.log[i] == b.log[i];
      }
    }
  }

  lemma EvolvesTransitive(a: Ledger, b: Ledger, c: Ledger, msgs: seq<Msg>, call: nat)
    requires Evolves(a, b, msgs, call) && Evolves(b, c, msgs, call)
    ensures Evolves(a, c, msgs, call)
  {
    forall k | |a.sent| <= k < |c.sent|
      ensures c.sent[k].tx.msgs == msgs && c.sent[k].call == call && |a.log| <= c.sent[k].seen
    {
      if k < |b.sent| {
        assert c.sent[k] == b.sent[k];
      }
    }
  }

  /** The last transaction signed is `tx`. */
  ghost predicate LastSentIs(c: Ledger, tx: Tx) {
    c.sent != [] && c.sent[|c.sent| - 1].tx == tx
  }

  // ---------- the last landed prevote ----------

  /** The last prevote for `v` among `msgs`. */
  function PrevoteIn(msgs: seq<Msg>, v: string): Option<string> {
    if msgs == [] then None
    else
      var last := msgs[|msgs| - 1];
      if last.PrevoteMsg? && last.validator == v then Some(last.hash)
      else PrevoteIn(msgs[..|msgs| - 1], v)
  }

  /** The prevote the chain holds for `v`: the last one that landed with code 0. */
  function LastPrevote(log: seq<Landing>, v: string): Option<string> {
    if log == [] then None
    else
      var last := log[|log| - 1];
      if last.code == 0 && PrevoteIn(last.tx.msgs, v).Some? then PrevoteIn(last.tx.msgs, v)
      else LastPrevote(log[..|log| - 1], v)
  }

  /** The chain's prevote for `v` is `hash`, and no transaction that can still land would change it. */
  ghost predicate Stable(c: Ledger, v: string, hash: string) {
    && LastPrevote(c.log, v) == Some(hash)
    && forall k :: 0 <= k < |c.sent| && c.Sequence() <= c.sent[k].tx.sequence ==>
         PrevoteIn(c.sent[k].tx.msgs, v) in {None, Some(hash)}
  }

  /** From index `i` on, every landing leaves the prevote for `v` at `hash` or does not touch it. */
  lemma {:induction false} LastPrevoteFrom(log: seq<Landing>, i: nat, v: string, hash: string)
    requires i <= |log| && LastPrevote(log[..i], v) == Some(hash)
    requires forall j :: i <= j < |log| ==> PrevoteIn(log[j].tx.msgs, v) in {None, Some(hash)}
    ensures LastPrevote(log, v) == Some(hash)
  {
    if i == |log| {
      assert log[..i] == log;
    } else {
      var front := log[..|log| - 1];
      assert front[..i] == log[..i];
      LastPrevoteFrom(front, i, v, hash);
    }
  }

  /** Whatever lands later, a stable prevote stays the chain's prevote. */
  lemma StableUnderSettling(c: Ledger, c': Ledger, v: string, hash: string)
    requires Sound(c) && Settles(c, c') && Stable(c, v, hash)
    ensures Stable(c', v, hash)
  {
    forall j | |c.log| <= j < |c'.log|
      ensures PrevoteIn(c'.log[j].tx.msgs, v) in {None, Some(hash)}
    {
      var k :| 0 <= k < |c.sent| && c.sent[k].tx == c'.log[j].tx && c.sent[k].seen <= j;
    }
    assert c'.log[..|c.log|] == c.log;
    LastPrevoteFrom(c'.log, |c.log|, v, hash);
  }

  /** Signing and landing transactions that have no other prevote for `v` keeps its prevote stable. */
  lemma StableUnderOthers(c: Ledger, c': Ledger, msgs: seq<Msg>, call: nat, v: string, hash: string)
    requires Sound(c) && Evolves(c, c', msgs, call) && Stable(c, v, hash)
    requires PrevoteIn(msgs, v) in {None, Some(hash)}
    ensures Stable(c', v, hash)
  {
    forall k | 0 <= k < |c'.sent| && c.Sequence() <= c'.sent[k].tx.sequence
      ensures PrevoteIn(c'.sent[k].tx.msgs, v) in {None, Some(hash)}
    {
      if k < |c.sent| {
        assert c'.sent[k] == c.sent[k];
      }
    }
    forall j | |c.log| <= j < |c'.log|
      ensures PrevoteIn(c'.log[j].tx.msgs, v) in {None, Some(hash)}
    {
      var k :| 0 <= k < |c'.sent| && c'.sent[k].tx == c'.log[j].tx && c'.sent[k].seen <= j;
      assert c'.log[j].tx.sequence == c'.base + j;
    }
    assert c'.log[..|c.log|] == c.log;
    LastPrevoteFrom(c'.log, |c.log|, v, hash);
  }

  /** What lands after index `i`, beyond the landings of `c`, was signed anew: it carries `msgs`. */
  lemma LaterLandingsCarry(c: Ledger, c': Ledger, msgs: seq<Msg>, call: nat, i: nat)
    requires Sound(c) && Evolves(c, c', msgs, call) && |c.log| <= i
    ensures forall m :: 0 <= m < |c'.sent| && c'.base + i < c'.sent[m].tx.sequence ==> c'.sent[m].tx.msgs == msgs
    ensures forall j :: i < j < |c'.log| ==> c'.log[j].tx.msgs == msgs
  {
    assert forall m :: 0 <= m < |c.sent| ==> c'.sent[m] == c.sent[m];
    forall j | i < j < |c'.log| ensures c'.log[j].tx.msgs == msgs {
      var m :| 0 <= m < |c'.sent| && c'.sent[m].tx == c'.log[j].tx && c'.sent[m].seen <= j;
      assert c'.log[j].tx.sequence == c'.base + j;
    }
  }

  lemma NewLanding(c: Ledger, c': Ledger, tx: Tx) returns (i: nat)
    requires c.log <= c'.log && !c.Landed(tx, 0) && c'.Landed(tx, 0)
    ensures |c.log| <= i < |c'.log| && c'.log[i] == Landing(tx, 0)
  {
    i :| 0 <= i < |c'.log| && c'.log[i] == Landing(tx, 0);
    assert forall n :: 0 <= n < |c.log| ==> c'.log[n] == c.log[n];
  }

  /** The heart of the protocol: one confirmed landing among attempts that all carry the same messages
      makes everything signed earlier dead, so the prevote it carries is the chain's, and the only
      transactions still in flight repeat it. The landing must not be an old one. */
  lemma ConfirmedIsStable(c: Ledger, c': Ledger, msgs: seq<Msg>, call: nat, tx: Tx, v: string, hash: string)
    requires Sound(c) && Evolves(c, c', msgs, call)
    requires !c.Landed(tx, 0)
    requires tx.msgs == msgs && c'.Landed(tx, 0)
    requires PrevoteIn(msgs, v) == Some(hash)
    ensures Stable(c', v, hash)
  {
    var i := NewLanding(c, c', tx);
    LaterLandingsCarry(c, c', msgs, call, i);
    assert c'.log[..i + 1][..i] == c'.log[..i];
    LastPrevoteFrom(c'.log, i + 1, v, hash);
  }

  /** When a round of attempts begins at `c`, finding `tx` landed with code 0 at its end will prove
      agreement: `tx` has not landed yet, or if it has, its prevote is still the stable one. */
  ghost predicate Assured(c: Ledger, tx: Tx, v: string, hash: string) {
    c.Landed(tx, 0) ==> Stable(c, v, hash)
  }

  /** A sequence that was not stale when the round began is enough. */
  lemma FreshSequenceAssures(c: Ledger, tx: Tx, v: string, hash: string)
    requires Sound(c) && tx.sequence >= c.Sequence()
    ensures Assured(c, tx, v, hash)
  {
  }

  /** So is a commitment that no transaction has carried before. */
  lemma NewCommitmentAssures(c: Ledger, tx: Tx, v: string, hash: string)
    requires Sound(c) && PrevoteIn(tx.msgs, v) == Some(hash) && NeverCommitted(c, v, hash)
    ensures Assured(c, tx, v, hash)
  {
    forall i | 0 <= i < |c.log| ensures c.log[i].tx != tx {
      var k :| 0 <= k < |c.sent| && c.sent[k].tx == c.log[i].tx && c.sent[k].seen <= i;
    }
  }

  ghost predicate NeverCommitted(c: Ledger, v: string, hash: string) {
    forall k :: 0 <= k < |c.sent| ==> PrevoteIn(c.sent[k].tx.msgs, v) != Some(hash)
  }

  lemma AssuredIsStable(c: Ledger, c': Ledger, call: nat, tx: Tx, v: string, hash: string)
    requires Sound(c) && Evolves(c, c', tx.msgs, call) && c'.Landed(tx, 0)
    requires PrevoteIn(tx.msgs, v) == Some(hash) && Assured(c, tx, v, hash)
    ensures Stable(c', v, hash)
  {
    if c.Landed(tx, 0) {
      StableUnderOthers(c, c', tx.msgs, call, v, hash);
    } else {
      ConfirmedIsStable(c, c', tx.msgs, call, tx, v, hash);
    }
  }

  /** When the confirmation of a transaction means agreement: in every run from `c` of attempts with
      its messages, exactly if it is assured at `c`. */
  lemma AgreementExactly(c: Ledger, call: nat, tx: Tx, v: string, hash: string)
    requires Sound(c) && PrevoteIn(tx.msgs, v) == Some(hash)
    ensures (forall c' :: Evolves(c, c', tx.msgs, call) && c'.Landed(tx, 0) ==> Stable(c', v, hash))
            <==> Assured(c, tx, v, hash)
  {
    if Assured(c, tx, v, hash) {
      forall c' | Evolves(c, c', tx.msgs, call) && c'.Landed(tx, 0) ensures Stable(c', v, hash) {
        AssuredIsStable(c, c', call, tx, v, hash);
      }
    } else {
      var c' := SignedAgain(c, call, tx, v, hash);
    }
  }

  /** A transaction that has landed already can be signed again on a stale sequence and is then found
      to have landed, although the chain holds or may come to hold another prevote. */
  lemma SignedAgain(c: Ledger, call: nat, tx: Tx, v: string, hash: string) returns (c': Ledger)
    requires Sound(c) && c.Landed(tx, 0) && !Stable(c, v, hash)
    ensures c' == Send(c, tx, call) && tx.sequence < c.Sequence()
    ensures Evolves(c, c', tx.msgs, call) && c'.Landed(tx, 0) && !Stable(c', v, hash)
  {
    var i :| 0 <= i < |c.log| && c.log[i] == Landing(tx, 0);
    c' := Send(c, tx, call);
    SendKeepsSound(c, tx, call);
    assert forall k :: 0 <= k < |c.sent| ==> c'.sent[k] == c.sent[k];
  }
}
