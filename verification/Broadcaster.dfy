/** Signing and broadcasting with a retry on sequence mismatch: pkg/feeder/tx/tx.go. */
module Broadcaster {
  import opened Wrappers
  import opened Ledger
  import opened Node
  import opened Text

  const MAX_RETRIES: nat := 3

  predicate IsSequenceMismatch(text: string) {
    var t := ToLower(text);
    && Contains(t, "sequence")
    && (Contains(t, "mismatch") || Contains(t, "expected") || Contains(t, "incorrect") || Contains(t, "invalid"))
  }

  /** Which error texts are retried: those that, in whatever letter case, mention the sequence and one
      of four complaints, anywhere. */
  lemma MismatchExactly(text: string)
    ensures IsSequenceMismatch(text) <==>
            Mentions(ToLower(text), "sequence")
            && exists complaint :: complaint in {"mismatch", "expected", "incorrect", "invalid"}
                                   && Mentions(ToLower(text), complaint)
  {
    var t := ToLower(text);
    ContainsExactly(t, "sequence");
    forall complaint ensures Contains(t, complaint) <==> Mentions(t, complaint) {
      ContainsExactly(t, complaint);
    }
    if IsSequenceMismatch(text) {
      var complaint := if Contains(t, "mismatch") then "mismatch" else if Contains(t, "expected") then "expected"
                       else if Contains(t, "incorrect") then "incorrect" else "invalid";
      assert complaint in {"mismatch", "expected", "incorrect", "invalid"} && Mentions(t, complaint);
    }
  }

  class Broadcaster {
    const node: Node
    ghost var lastSigning: Result<Tx, string>
    /** The results of all attempts and of all broadcasts so far. */
    ghost var attempts: seq<Result<Tx, string>>
    ghost var broadcasts: seq<Result<Tx, string>>

    constructor (node: Node)
      ensures this.node == node && attempts == [] && broadcasts == []
    {
      this.node := node;
      lastSigning := Err("");
      attempts, broadcasts := [], [];
    }

    /** Key lookup, building, signing and encoding; any of them may fail. */
    method Sign(tx: Tx) returns (r: Result<Tx, string>)
      modifies this`lastSigning
      ensures lastSigning == r && (r.Ok? ==> r.value == tx)
    {
      var signed: bool := *;
      var text: string := *;
      r := if signed then Ok(tx) else Err(text);
      lastSigning := r;
    }

    /** Reads the sequence, signs with it and sends: one transaction with exactly these messages, if
        the sequence could be read and the transaction signed, and none otherwise. */
    method BroadcastTxAttempt(msgs: seq<Msg>, call: nat) returns (r: Result<Tx, string>)
      requires Sound(node.ledger)
      modifies node, this`attempts, this`lastSigning
      ensures Evolves(old(node.ledger), node.ledger, msgs, call) && node.fetches == old(node.fetches)
      ensures attempts == old(attempts) + [r]
      ensures r.Ok? <==> node.lastAccount.Ok? && lastSigning.Ok? && node.lastReply.Checked? && node.lastReply.code == 0
      ensures r.Ok? ==> r.value == Tx(node.lastAccount.value, msgs)
      ensures r.Err? ==>
                r.error == if node.lastAccount.Err? then node.lastAccount.error
                           else if lastSigning.Err? then lastSigning.error
                           else node.lastReply.text
      ensures var sends := node.lastAccount.Ok? && lastSigning.Ok?;
              && |node.ledger.sent| == |old(node.ledger).sent| + (if sends then 1 else 0)
              && (sends ==> LastSentIs(node.ledger, Tx(node.lastAccount.value, msgs)))
    {
      ghost var c0 := node.ledger;
      var account := node.GetAccount();
      ghost var c1 := node.ledger;
      SettlesEvolves(c0, c1, msgs, call);
      if account.Err? {
        r := Err(account.error);
        attempts := attempts + [r];
        return;
      }
      var tx := Tx(account.value, msgs);
      var signed := Sign(tx);
      if signed.Err? {
        r := Err(signed.error);
        attempts := attempts + [r];
        return;
      }
      var reply := node.Broadcast(signed.value, call);
      ghost var c2 := Send(c1, tx, call);
      SendKeepsSound(c1, tx, call);
      SettlesEvolves(c2, node.ledger, msgs, call);
      EvolvesTransitive(c1, c2, node.ledger, msgs, call);
      EvolvesTransitive(c0, c1, node.ledger, msgs, call);
      match reply {
        case Unreachable(text) => r := Err(text);
        case Checked(code, log) => r := if code == 0 then Ok(tx) else Err(log);
      }
      attempts := attempts + [r];
    }

    /** Retries on sequence mismatches, reading the sequence and signing anew each time, and returns
        the result of the last attempt. */
    method BroadcastTx(msgs: seq<Msg>, call: nat) returns (r: Result<Tx, string>)
      requires Sound(node.ledger)
      modifies node, this
      ensures Evolves(old(node.ledger), node.ledger, msgs, call) && node.fetches == old(node.fetches)
      ensures broadcasts == old(broadcasts) + [r]
      ensures old(attempts) <= attempts && 1 <= |attempts| - |old(attempts)| <= 3 && r == attempts[|attempts| - 1]
      ensures forall i :: |old(attempts)| <= i < |attempts| - 1 ==> attempts[i].Err? && IsSequenceMismatch(attempts[i].error)
      ensures r.Err? && IsSequenceMismatch(r.error) ==> |attempts| - |old(attempts)| == 3
      ensures |node.ledger.sent| - |old(node.ledger).sent| <= |attempts| - |old(attempts)|
      ensures r.Ok? ==> r.value.msgs == msgs && LastSentIs(node.ledger, r.value)
    {
      SettlesEvolves(node.ledger, node.ledger, msgs, call);
      for attempt := 0 to MAX_RETRIES
        invariant Evolves(old(node.ledger), node.ledger, msgs, call)
        invariant old(attempts) <= attempts && |attempts| == |old(attempts)| + attempt
        invariant forall i :: |old(attempts)| <= i < |attempts| ==> attempts[i].Err? && IsSequenceMismatch(attempts[i].error)
        invariant |node.ledger.sent| - |old(node.ledger).sent| <= attempt
        invariant attempt < MAX_RETRIES && node.fetches == old(node.fetches) && broadcasts == old(broadcasts)
      {
        ghost var before := node.ledger;
        r := BroadcastTxAttempt(msgs, call);
        EvolvesTransitive(old(node.ledger), before, node.ledger, msgs, call);
        if r.Ok? {
          broadcasts := broadcasts + [r];
          return;
        }
        if !IsSequenceMismatch(r.error) || attempt == MAX_RETRIES - 1 {
          broadcasts := broadcasts + [r];
          return;
        }
      }
      // The last attempt always returns from the loop.
      assert false;
      r := Err("transaction failed");
    }
  }
}
