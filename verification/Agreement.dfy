/** What the voter's stored prevotes and the chain agree on, in every run of the commit-reveal protocol. */
module Agreement {
  import opened Wrappers
  import opened Ledger
  import opened Oracle

  // ---------- the record of a run ----------

  /** A prevote that was made, for a validator. */
  datatype Draw = Draw(validator: string, prevote: Prevote)

  /** Where a stored prevote comes from: its draw, the ledger when its round of attempts began, and
      the transaction found landed at the end of that round. */
  datatype Origin = Origin(draw: nat, start: Ledger, tx: Tx)

  /** The record that a voter's run leaves. The first `from` transactions were signed before it began;
      `draws` are the prevotes made, in order; `taken` says for each submission call which draw it
      takes from the store to reveal; `origins` describes the prevotes now stored. */
  datatype Diary = Diary(from: nat, draws: seq<Draw>, taken: seq<Option<nat>>, origins: map<string, Origin>) {
    function DrawOf(v: string): Option<nat> {
      if v in origins then Some(origins[v].draw) else None
    }

    /** A submission call for `v` begins; it reveals what is stored, which is stored no longer then. */
    function Begun(v: string): Diary {
      this.(taken := taken + [DrawOf(v)], origins := origins - {v})
    }

    /** A submission call that cannot make a prevote. */
    function Idle(): Diary {
      this.(taken := taken + [None])
    }

    function Drawn(v: string, p: Prevote): Diary {
      this.(draws := draws + [Draw(v, p)])
    }

    /** The last draw is stored, confirmed by `tx` in a round that began at `start`. */
    function Kept(v: string, start: Ledger, tx: Tx): Diary
      requires draws != []
    {
      this.(origins := origins[v := Origin(|draws| - 1, start, tx)])
    }
  }

  // ---------- commit before reveal ----------

  /** The commitment that a vote message opens. */
  function CommitmentOf(opening: Msg, hash: string -> string): Msg
    requires opening.VoteMsg?
  {
    PrevoteMsg(Commitment(hash, opening.salt, opening.rates, opening.validator), opening.validator)
  }

  /** When `e` was handed to the network, the commitment opened by `opening` had landed with code 0. */
  ghost predicate CommittedBefore(c: Ledger, e: Sent, opening: Msg, hash: string -> string)
    requires opening.VoteMsg?
  {
    exists i :: 0 <= i < e.seen && i < |c.log| && c.log[i].code == 0 && CommitmentOf(opening, hash) in c.log[i].tx.msgs
  }

  /** No transaction signed from index `from` on reveals before its commitment has landed. */
  ghost predicate CommitBeforeReveal(c: Ledger, from: nat, hash: string -> string) {
    forall k, m: Msg :: from <= k < |c.sent| && m in c.sent[k].tx.msgs && m.VoteMsg? ==>
      CommittedBefore(c, c.sent[k], m, hash)
  }

  /** The commitment has landed with code 0. */
  ghost predicate Confirmed(c: Ledger, msg: Msg) {
    exists i :: 0 <= i < |c.log| && c.log[i].code == 0 && msg in c.log[i].tx.msgs
  }

  lemma EvolvesKeepsCommitted(c: Ledger, c': Ledger, msgs: seq<Msg>, call: nat, e: Sent, opening: Msg,
                              hash: string -> string)
    requires Evolves(c, c', msgs, call) && opening.VoteMsg? && CommittedBefore(c, e, opening, hash)
    ensures CommittedBefore(c', e, opening, hash)
  {
    var i :| 0 <= i < e.seen && i < |c.log| && c.log[i].code == 0 && CommitmentOf(opening, hash) in c.log[i].tx.msgs;
    assert c'.log[i] == c.log[i];
  }

  lemma ConfirmedIsCommitted(c: Ledger, c': Ledger, msgs: seq<Msg>, call: nat, e: Sent, opening: Msg,
                             hash: string -> string)
    requires Evolves(c, c', msgs, call) && opening.VoteMsg? && Confirmed(c, CommitmentOf(opening, hash))
    requires |c.log| <= e.seen
    ensures CommittedBefore(c', e, opening, hash)
  {
    var i :| 0 <= i < |c.log| && c.log[i].code == 0 && CommitmentOf(opening, hash) in c.log[i].tx.msgs;
    assert c'.log[i] == c.log[i];
  }

  /** Signing only `msgs` keeps the order of commit and reveal if what they reveal has landed. */
  lemma EvolvesKeepsCommitBeforeReveal(c: Ledger, c': Ledger, from: nat, msgs: seq<Msg>, call: nat, hash: string -> string)
    requires Evolves(c, c', msgs, call) && CommitBeforeReveal(c, from, hash)
    requires forall m :: m in msgs && m.VoteMsg? ==> Confirmed(c, CommitmentOf(m, hash))
    ensures CommitBeforeReveal(c', from, hash)
  {
    forall k, m: Msg | from <= k < |c'.sent| && m in c'.sent[k].tx.msgs && m.VoteMsg?
      ensures CommittedBefore(c', c'.sent[k], m, hash)
    {
      if k < |c.sent| {
        assert c'.sent[k] == c.sent[k];
        EvolvesKeepsCommitted(c, c', msgs, call, c.sent[k], m, hash);
      } else {
        ConfirmedIsCommitted(c, c', msgs, call, c'.sent[k], m, hash);
      }
    }
  }

  // ---------- what is revealed, and by which call ----------

  ghost predicate RevealsIn(msgs: seq<Msg>) {
    exists m :: m in msgs && m.VoteMsg?
  }

  /** Transaction `k` reveals draw `e`. */
  ghost predicate Reveals(c: Ledger, d: Diary, k: nat, e: nat) {
    && d.from <= k < |c.sent| && c.sent[k].call < |d.taken|
    && RevealsIn(c.sent[k].tx.msgs) && d.taken[c.sent[k].call] == Some(e) && e < |d.draws|
  }

  function VoteOf(draw: Draw): Msg {
    NewVote(draw.prevote, draw.validator)
  }

  /** Every signed transaction belongs to a call so far, and all it reveals is the draw its call took from the store. */
  ghost predicate Labelled(c: Ledger, from: nat, taken: seq<Option<nat>>, draws: seq<Draw>) {
    forall k :: from <= k < |c.sent| ==> LabelledBy(c.sent[k], taken, draws)
  }

  ghost predicate LabelledBy(e: Sent, taken: seq<Option<nat>>, draws: seq<Draw>) {
    && e.call < |taken|
    && forall m :: m in e.tx.msgs && m.VoteMsg? ==>
         taken[e.call].Some? && taken[e.call].value < |draws| && m == VoteOf(draws[taken[e.call].value])
  }

  /** No draw is taken from the store twice. */
  ghost predicate TakenOnce(taken: seq<Option<nat>>, draws: nat) {
    && (forall j, k :: 0 <= j < k < |taken| && taken[j].Some? ==> taken[j] != taken[k])
    && (forall k :: 0 <= k < |taken| && taken[k].Some? ==> taken[k].value < draws)
  }

  /** What was taken is not stored. */
  ghost predicate NotTaken(origins: map<string, Origin>, taken: seq<Option<nat>>) {
    forall v :: v in origins ==> Some(origins[v].draw) !in taken
  }

  lemma StaysLabelled(e: Sent, taken: seq<Option<nat>>, draws: seq<Draw>, taken': seq<Option<nat>>, draws': seq<Draw>)
    requires LabelledBy(e, taken, draws) && taken <= taken' && draws <= draws'
    ensures LabelledBy(e, taken', draws')
  {
  }

  // ---------- the invariant of a run ----------

  /** A stored prevote opens its own commitment; it was made for its validator, was found landed with
      code 0 in the round it comes from, and if that was assured when the round began, the chain
      holds it for the validator and no transaction that can still land changes that. */
  ghost predicate Traced(c: Ledger, draws: seq<Draw>, o: Origin, v: string, p: Prevote, hash: string -> string) {
    && o.draw < |draws| && draws[o.draw] == Draw(v, p)
    && Opens(p, hash, v)
    && c.Landed(o.tx, 0) && o.tx.msgs != [] && o.tx.msgs[|o.tx.msgs| - 1] == p.msg
    && o.start.log <= c.log && o.start.sent <= c.sent
    && (Assured(o.start, o.tx, v, p.msg.hash) ==> Stable(c, v, p.msg.hash))
  }

  /** What was signed from index `from` on. */
  ghost predicate History(c: Ledger, from: nat, taken: seq<Option<nat>>, draws: seq<Draw>, hash: string -> string) {
    && Sound(c) && from <= |c.sent|
    && CommitBeforeReveal(c, from, hash)
    && Labelled(c, from, taken, draws) && TakenOnce(taken, |draws|)
  }

  /** What is stored. */
  ghost predicate Holdings(c: Ledger, prevotes: map<string, Prevote>, origins: map<string, Origin>,
                           taken: seq<Option<nat>>, draws: seq<Draw>, hash: string -> string) {
    && origins.Keys == prevotes.Keys && NotTaken(origins, taken)
    && forall v :: v in prevotes ==> Traced(c, draws, origins[v], v, prevotes[v], hash)
  }

  /** The invariant of the voter between submissions. */
  ghost predicate Consistent(c: Ledger, prevotes: map<string, Prevote>, d: Diary, hash: string -> string) {
    && History(c, d.from, d.taken, d.draws, hash)
    && Holdings(c, prevotes, d.origins, d.taken, d.draws, hash)
  }

  lemma LandedConfirms(c: Ledger, tx: Tx, msg: Msg)
    requires c.Landed(tx, 0) && tx.msgs != [] && msg == tx.msgs[|tx.msgs| - 1]
    ensures Confirmed(c, msg)
  {
    var i :| 0 <= i < |c.log| && c.log[i] == Landing(tx, 0);
    assert msg in tx.msgs;
  }

  lemma {:induction false} NoPrevoteIn(msgs: seq<Msg>, v: string)
    requires forall m :: m in msgs ==> m.validator != v
    ensures PrevoteIn(msgs, v) == None
  {
    if msgs != [] {
      assert msgs[|msgs| - 1] in msgs;
      NoPrevoteIn(msgs[..|msgs| - 1], v);
    }
  }

  /** Another validator's transactions leave a prevote traced. */
  lemma EvolvesKeepsTraced(c: Ledger, c': Ledger, msgs: seq<Msg>, call: nat, draws: seq<Draw>, o: Origin, v: string,
                           p: Prevote, hash: string -> string)
    requires Sound(c) && Evolves(c, c', msgs, call) && Traced(c, draws, o, v, p, hash)
    requires forall m :: m in msgs ==> m.validator != v
    ensures Traced(c', draws, o, v, p, hash)
  {
    var i :| 0 <= i < |c.log| && c.log[i] == Landing(o.tx, 0);
    assert c'.log[i] == c.log[i];
    if Assured(o.start, o.tx, v, p.msg.hash) {
      NoPrevoteIn(msgs, v);
      StableUnderOthers(c, c', msgs, call, v, p.msg.hash);
    }
  }

  /** Attempts of the call under way, for a validator with nothing stored, keep the invariant. */
  lemma AttemptsKeepConsistent(c: Ledger, c': Ledger, prevotes: map<string, Prevote>, d: Diary, hash: string -> string,
                               v: string, msgs: seq<Msg>)
    requires Consistent(c, prevotes, d, hash) && v !in prevotes && Ready(c, d, hash, v, msgs)
    requires Evolves(c, c', msgs, |d.taken| - 1)
    ensures Consistent(c', prevotes, d, hash)
  {
    EvolvesKeepsHistory(c, c', d.from, d.taken, d.draws, hash, msgs);
    EvolvesKeepsHoldings(c, c', prevotes, d.origins, d.taken, d.draws, hash, msgs, |d.taken| - 1);
  }

  lemma EvolvesKeepsHoldings(c: Ledger, c': Ledger, prevotes: map<string, Prevote>, origins: map<string, Origin>,
                             taken: seq<Option<nat>>, draws: seq<Draw>, hash: string -> string, msgs: seq<Msg>, call: nat)
    requires Sound(c) && Holdings(c, prevotes, origins, taken, draws, hash) && Evolves(c, c', msgs, call)
    requires forall m :: m in msgs ==> m.validator !in prevotes
    ensures Holdings(c', prevotes, origins, taken, draws, hash)
  {
    forall w | w in prevotes ensures Traced(c', draws, origins[w], w, prevotes[w], hash) {
      EvolvesKeepsTraced(c, c', msgs, call, draws, origins[w], w, prevotes[w], hash);
    }
  }

  lemma EvolvesKeepsHistory(c: Ledger, c': Ledger, from: nat, taken: seq<Option<nat>>, draws: seq<Draw>,
                            hash: string -> string, msgs: seq<Msg>)
    requires taken != [] && History(c, from, taken, draws, hash) && Evolves(c, c', msgs, |taken| - 1)
    requires forall m :: m in msgs && m.VoteMsg? ==> Confirmed(c, CommitmentOf(m, hash))
    requires LabelledBy(Sent(Tx(0, msgs), 0, |taken| - 1), taken, draws)
    ensures History(c', from, taken, draws, hash)
  {
    EvolvesKeepsCommitBeforeReveal(c, c', from, msgs, |taken| - 1, hash);
    EvolvesKeepsLabelled(c, c', from, taken, draws, msgs);
  }

  lemma EvolvesKeepsLabelled(c: Ledger, c': Ledger, from: nat, taken: seq<Option<nat>>, draws: seq<Draw>, msgs: seq<Msg>)
    requires taken != [] && Labelled(c, from, taken, draws) && Evolves(c, c', msgs, |taken| - 1)
    requires LabelledBy(Sent(Tx(0, msgs), 0, |taken| - 1), taken, draws)
    ensures Labelled(c', from, taken, draws)
  {
    forall k | from <= k < |c'.sent| ensures LabelledBy(c'.sent[k], taken, draws) {
      if k < |c.sent| {
        assert c'.sent[k] == c.sent[k];
      } else {
        assert c'.sent[k].tx.msgs == msgs && c'.sent[k].call == |taken| - 1;
      }
    }
  }

  /** Landings between submissions keep the invariant. */
  lemma SettlesKeepsConsistent(c: Ledger, c': Ledger, prevotes: map<string, Prevote>, d: Diary, hash: string -> string)
    requires Consistent(c, prevotes, d, hash) && Settles(c, c')
    ensures Consistent(c', prevotes, d, hash)
  {
    SettlesEvolves(c, c', [], 0);
    EvolvesKeepsCommitBeforeReveal(c, c', d.from, [], 0, hash);
    EvolvesKeepsHoldings(c, c', prevotes, d.origins, d.taken, d.draws, hash, [], 0);
  }

  /** Later entries of the diary do not change what was revealed. */
  lemma HistoryGrows(c: Ledger, from: nat, taken: seq<Option<nat>>, draws: seq<Draw>, hash: string -> string,
                     taken': seq<Option<nat>>, draws': seq<Draw>)
    requires History(c, from, taken, draws, hash)
    requires taken <= taken' && draws <= draws' && TakenOnce(taken', |draws'|)
    ensures History(c, from, taken', draws', hash)
  {
    forall k | from <= k < |c.sent| ensures LabelledBy(c.sent[k], taken', draws') {
      StaysLabelled(c.sent[k], taken, draws, taken', draws');
    }
  }

  lemma HoldingsGrow(c: Ledger, prevotes: map<string, Prevote>, origins: map<string, Origin>, taken: seq<Option<nat>>,
                     draws: seq<Draw>, hash: string -> string, taken': seq<Option<nat>>, draws': seq<Draw>)
    requires Holdings(c, prevotes, origins, taken, draws, hash)
    requires NotTaken(origins, taken') && draws <= draws'
    ensures Holdings(c, prevotes, origins, taken', draws', hash)
  {
    forall v | v in prevotes ensures Traced(c, draws', origins[v], v, prevotes[v], hash) {
      assert Traced(c, draws, origins[v], v, prevotes[v], hash);
    }
  }

  lemma HoldingsWithout(c: Ledger, prevotes: map<string, Prevote>, origins: map<string, Origin>, taken: seq<Option<nat>>,
                        draws: seq<Draw>, hash: string -> string, v: string, taken': seq<Option<nat>>)
    requires Holdings(c, prevotes, origins, taken, draws, hash) && NotTaken(origins - {v}, taken')
    ensures Holdings(c, prevotes - {v}, origins - {v}, taken', draws, hash)
  {
    var prevotes', origins' := prevotes - {v}, origins - {v};
    forall w | w in prevotes' ensures Traced(c, draws, origins'[w], w, prevotes'[w], hash) {
      assert Traced(c, draws, origins[w], w, prevotes[w], hash);
    }
  }

  /** Another draw keeps the invariant. */
  lemma DrawnKeepsConsistent(c: Ledger, prevotes: map<string, Prevote>, d: Diary, hash: string -> string,
                             v: string, p: Prevote)
    requires Consistent(c, prevotes, d, hash)
    ensures Consistent(c, prevotes, d.Drawn(v, p), hash)
    ensures Some(|d.draws|) !in d.taken
  {
    var d' := d.Drawn(v, p);
    HistoryGrows(c, d.from, d.taken, d.draws, hash, d'.taken, d'.draws);
    HoldingsGrow(c, prevotes, d.origins, d.taken, d.draws, hash, d'.taken, d'.draws);
  }

  /** A call that takes draw `o` from the store, or nothing. */
  lemma TakenKeepsOnce(taken: seq<Option<nat>>, draws: nat, o: Option<nat>)
    requires TakenOnce(taken, draws) && (o.Some? ==> o !in taken && o.value < draws)
    ensures TakenOnce(taken + [o], draws)
  {
    assert forall k :: 0 <= k < |taken| ==> (taken + [o])[k] == taken[k] && taken[k] in taken;
  }

  lemma NotTakenThen(origins: map<string, Origin>, taken: seq<Option<nat>>, v: string, o: Option<nat>)
    requires NotTaken(origins, taken)
    requires forall w :: w in origins && w != v ==> o != Some(origins[w].draw)
    ensures NotTaken(origins - {v}, taken + [o])
  {
  }

  /** So does the beginning of a call, without what is stored for its validator. */
  lemma BegunKeepsConsistent(c: Ledger, prevotes: map<string, Prevote>, d: Diary, hash: string -> string, v: string)
    requires Consistent(c, prevotes, d, hash)
    ensures Consistent(c, prevotes - {v}, d.Begun(v), hash)
  {
    var d' := d.Begun(v);
    BegunKeepsTaken(c, prevotes, d, hash, v);
    HistoryGrows(c, d.from, d.taken, d.draws, hash, d'.taken, d'.draws);
    HoldingsWithout(c, prevotes, d.origins, d.taken, d.draws, hash, v, d'.taken);
  }

  lemma BegunKeepsTaken(c: Ledger, prevotes: map<string, Prevote>, d: Diary, hash: string -> string, v: string)
    requires Holdings(c, prevotes, d.origins, d.taken, d.draws, hash) && TakenOnce(d.taken, |d.draws|)
    ensures TakenOnce(d.Begun(v).taken, |d.draws|) && NotTaken(d.Begun(v).origins, d.Begun(v).taken)
  {
    forall w | w in d.origins && w != v ensures d.DrawOf(v) != Some(d.origins[w].draw) {
      OriginsDiffer(c, prevotes, d, hash, v, w);
    }
    if v in prevotes {
      assert Traced(c, d.draws, d.origins[v], v, prevotes[v], hash);
    }
    TakenKeepsOnce(d.taken, |d.draws|, d.DrawOf(v));
    NotTakenThen(d.origins, d.taken, v, d.DrawOf(v));
  }

  lemma OriginsDiffer(c: Ledger, prevotes: map<string, Prevote>, d: Diary, hash: string -> string, v: string, w: string)
    requires Holdings(c, prevotes, d.origins, d.taken, d.draws, hash) && w in prevotes && v != w
    ensures d.DrawOf(v) != Some(d.origins[w].draw)
  {
    assert Traced(c, d.draws, d.origins[w], w, prevotes[w], hash);
    if v in prevotes {
      assert Traced(c, d.draws, d.origins[v], v, prevotes[v], hash);
    }
  }

  lemma IdleKeepsConsistent(c: Ledger, prevotes: map<string, Prevote>, d: Diary, hash: string -> string)
    requires Consistent(c, prevotes, d, hash)
    ensures Consistent(c, prevotes, d.Idle(), hash)
  {
    var d' := d.Idle();
    TakenKeepsOnce(d.taken, |d.draws|, None);
    HistoryGrows(c, d.from, d.taken, d.draws, hash, d'.taken, d'.draws);
    HoldingsGrow(c, prevotes, d.origins, d.taken, d.draws, hash, d'.taken, d'.draws);
  }

  function Stored(prevotes: map<string, Prevote>, v: string): Option<Prevote> {
    if v in prevotes then Some(prevotes[v]) else None
  }

  /** The messages `msgs` are for `v`, and what they reveal has landed and is what the call under way
      took from the store. */
  ghost predicate Ready(c: Ledger, d: Diary, hash: string -> string, v: string, msgs: seq<Msg>) {
    && (forall m :: m in msgs ==> m.validator == v)
    && (forall m :: m in msgs && m.VoteMsg? ==> Confirmed(c, CommitmentOf(m, hash)))
    && d.taken != [] && LabelledBy(Sent(Tx(0, msgs), 0, |d.taken| - 1), d.taken, d.draws)
  }

  /** Revealing the stored prevote with a new commitment. */
  lemma StoredIsReady(c: Ledger, prevotes: map<string, Prevote>, d: Diary, hash: string -> string, v: string, p: Prevote)
    requires Holdings(c, prevotes, d.origins, d.taken, d.draws, hash) && Opens(p, hash, v)
    ensures Ready(c, d.Begun(v).Drawn(v, p), hash, v, CombinedMessages(Stored(prevotes, v), p, v))
  {
    if v in prevotes {
      StoredIsConfirmed(c, prevotes, d, hash, v);
      TakenIsReady(c, d, hash, v, prevotes[v], p);
    } else {
      assert CombinedMessages(Stored(prevotes, v), p, v) == [p.msg];
      AloneIsReady(c, d.Begun(v).Drawn(v, p), hash, v, p);
    }
  }

  lemma StoredIsConfirmed(c: Ledger, prevotes: map<string, Prevote>, d: Diary, hash: string -> string, v: string)
    requires Holdings(c, prevotes, d.origins, d.taken, d.draws, hash) && v in prevotes
    ensures v in d.origins && d.origins[v].draw < |d.draws| && d.draws[d.origins[v].draw] == Draw(v, prevotes[v])
    ensures Opens(prevotes[v], hash, v) && Confirmed(c, prevotes[v].msg)
  {
    TracedIsConfirmed(c, d.draws, d.origins[v], v, prevotes[v], hash);
  }

  lemma TracedIsConfirmed(c: Ledger, draws: seq<Draw>, o: Origin, v: string, p: Prevote, hash: string -> string)
    requires Traced(c, draws, o, v, p, hash)
    ensures o.draw < |draws| && draws[o.draw] == Draw(v, p) && Opens(p, hash, v) && Confirmed(c, p.msg)
  {
    LandedConfirms(c, o.tx, p.msg);
  }

  lemma TakenIsReady(c: Ledger, d: Diary, hash: string -> string, v: string, stored: Prevote, p: Prevote)
    requires v in d.origins && d.origins[v].draw < |d.draws| && d.draws[d.origins[v].draw] == Draw(v, stored)
    requires Opens(p, hash, v) && Opens(stored, hash, v) && Confirmed(c, stored.msg)
    ensures Ready(c, d.Begun(v).Drawn(v, p), hash, v, CombinedMessages(Some(stored), p, v))
  {
    var d' := d.Begun(v).Drawn(v, p);
    assert d'.taken[|d'.taken| - 1] == Some(d.origins[v].draw);
    assert d'.draws[d.origins[v].draw] == Draw(v, stored);
    assert CommitmentOf(NewVote(stored, v), hash) == stored.msg;
    assert CombinedMessages(Some(stored), p, v) == [NewVote(stored, v), p.msg];
  }

  /** A new commitment alone reveals nothing. */
  lemma AloneIsReady(c: Ledger, d: Diary, hash: string -> string, v: string, p: Prevote)
    requires Opens(p, hash, v) && d.taken != []
    ensures Ready(c, d, hash, v, [p.msg])
  {
  }

  /** The end of a round of attempts for `v`; `landed` is the transaction found landed with code 0, if there is one. */
  lemma RoundEnds(c: Ledger, c': Ledger, prevotes: map<string, Prevote>, d: Diary, hash: string -> string,
                  v: string, p: Prevote, msgs: seq<Msg>, landed: Option<Tx>)
    requires Consistent(c, prevotes, d, hash) && v !in prevotes && Ready(c, d, hash, v, msgs)
    requires d.draws != [] && d.draws[|d.draws| - 1] == Draw(v, p) && Some(|d.draws| - 1) !in d.taken
    requires Opens(p, hash, v) && msgs != [] && msgs[|msgs| - 1] == p.msg
    requires Evolves(c, c', msgs, |d.taken| - 1)
    requires landed.Some? ==> landed.value.msgs == msgs && c'.Landed(landed.value, 0)
    ensures Consistent(c', prevotes, d, hash)
    ensures landed.Some? ==> Consistent(c', prevotes[v := p], d.Kept(v, c, landed.value), hash)
  {
    AttemptsKeepConsistent(c, c', prevotes, d, hash, v, msgs);
    if landed.Some? {
      ConfirmedKeepsConsistent(c, c', prevotes, d, hash, v, p, landed.value);
    }
  }

  /** A confirmed round may store its prevote. */
  lemma ConfirmedKeepsConsistent(c: Ledger, c': Ledger, prevotes: map<string, Prevote>, d: Diary, hash: string -> string,
                                 v: string, p: Prevote, tx: Tx)
    requires Sound(c) && Consistent(c', prevotes, d, hash) && v !in prevotes && d.taken != []
    requires d.draws != [] && d.draws[|d.draws| - 1] == Draw(v, p) && Some(|d.draws| - 1) !in d.taken
    requires Opens(p, hash, v) && tx.msgs != [] && tx.msgs[|tx.msgs| - 1] == p.msg
    requires Evolves(c, c', tx.msgs, |d.taken| - 1) && c'.Landed(tx, 0)
    ensures Consistent(c', prevotes[v := p], d.Kept(v, c, tx), hash)
  {
    var o := Origin(|d.draws| - 1, c, tx);
    if Assured(c, tx, v, p.msg.hash) {
      AssuredIsStable(c, c', |d.taken| - 1, tx, v, p.msg.hash);
    }
    assert Traced(c', d.draws, o, v, p, hash);
    OneMoreHeld(c', prevotes, d.origins, d.taken, d.draws, hash, v, p, o);
  }

  lemma OneMoreHeld(c: Ledger, prevotes: map<string, Prevote>, origins: map<string, Origin>, taken: seq<Option<nat>>,
                    draws: seq<Draw>, hash: string -> string, v: string, p: Prevote, o: Origin)
    requires Holdings(c, prevotes, origins, taken, draws, hash)
    requires Traced(c, draws, o, v, p, hash) && Some(o.draw) !in taken
    ensures Holdings(c, prevotes[v := p], origins[v := o], taken, draws, hash)
  {
    var after, after' := prevotes[v := p], origins[v := o];
    forall w | w in after ensures Traced(c, draws, after'[w], w, after[w], hash) {
      if w != v {
        assert Traced(c, draws, origins[w], w, prevotes[w], hash);
      }
    }
  }

  // ---------- what follows ----------

  /** Agreement: in every state the voter can be in between submissions, and however the chain moves on
      from there, the last landed prevote of a validator is the one stored for it, the vote that will
      reveal it opens it, and nothing in flight can change it, if its confirmation was assured. */
  lemma StoredIsOnChain(c: Ledger, prevotes: map<string, Prevote>, d: Diary, hash: string -> string, v: string, c': Ledger)
    requires Consistent(c, prevotes, d, hash) && v in prevotes && Settles(c, c')
    requires Assured(d.origins[v].start, d.origins[v].tx, v, prevotes[v].msg.hash)
    ensures var next := NewVote(prevotes[v], v);
            LastPrevote(c'.log, v) == Some(Commitment(hash, next.salt, next.rates, v))
    ensures forall k :: 0 <= k < |c'.sent| && c'.Sequence() <= c'.sent[k].tx.sequence ==>
              PrevoteIn(c'.sent[k].tx.msgs, v) in {None, LastPrevote(c'.log, v)}
  {
    assert Traced(c, d.draws, d.origins[v], v, prevotes[v], hash);
    StableUnderSettling(c, c', v, prevotes[v].msg.hash);
  }

  /** On the chain, too, every reveal comes after its commitment: it landed at a later place, and the
      commitment was executed. */
  lemma LandedRevealFollowsCommitment(c: Ledger, from: nat, hash: string -> string, k: nat, j: nat, opening: Msg)
    requires Sound(c) && CommitBeforeReveal(c, from, hash)
    requires from <= k < |c.sent| && c.sent[k].seen <= j < |c.log| && c.log[j].tx == c.sent[k].tx
    requires opening in c.sent[k].tx.msgs && opening.VoteMsg?
    ensures exists i :: 0 <= i < j && c.log[i].code == 0 && CommitmentOf(opening, hash) in c.log[i].tx.msgs
  {
    assert CommittedBefore(c, c.sent[k], opening, hash);
  }

  /** A drawn prevote is revealed by one submission call only, in every run. */
  lemma DrawRevealedInOneCall(c: Ledger, prevotes: map<string, Prevote>, d: Diary, hash: string -> string,
                              j: nat, k: nat, e: nat)
    requires Consistent(c, prevotes, d, hash) && Reveals(c, d, j, e) && Reveals(c, d, k, e)
    ensures c.sent[j].call == c.sent[k].call
  {
  }

  /** And every reveal is of a drawn prevote, one for each transaction, and no longer stored. */
  lemma RevealIsOfADraw(c: Ledger, prevotes: map<string, Prevote>, d: Diary, hash: string -> string, k: nat, m: Msg)
    returns (e: nat)
    requires Labelled(c, d.from, d.taken, d.draws) && Holdings(c, prevotes, d.origins, d.taken, d.draws, hash)
    requires d.from <= k < |c.sent| && m in c.sent[k].tx.msgs && m.VoteMsg?
    ensures Reveals(c, d, k, e) && e < |d.draws| && m == VoteOf(d.draws[e])
    ensures forall v :: v in prevotes ==> d.origins[v].draw != e
  {
    assert LabelledBy(c.sent[k], d.taken, d.draws);
    e := d.taken[c.sent[k].call].value;
    forall v | v in prevotes ensures d.origins[v].draw != e {
      assert d.taken[c.sent[k].call] in d.taken;
    }
  }

  /** Two transactions with the same reveal belong to the same submission call. */
  ghost predicate RevealedOnce(c: Ledger, from: nat) {
    forall j, k, m: Msg :: from <= j < |c.sent| && from <= k < |c.sent| && m.VoteMsg?
                      && m in c.sent[j].tx.msgs && m in c.sent[k].tx.msgs
                      ==> c.sent[j].call == c.sent[k].call
  }

  /** Draw `e` was revealed. */
  ghost predicate Shown(c: Ledger, d: Diary, e: nat) {
    exists k: nat :: Reveals(c, d, k, e)
  }

  /** The text of a vote is revealed by one call only, exactly if no two revealed draws coincide in
      salt, vote string and validator. */
  lemma RevealedOnceExactly(c: Ledger, prevotes: map<string, Prevote>, d: Diary, hash: string -> string)
    requires Consistent(c, prevotes, d, hash)
    ensures RevealedOnce(c, d.from)
            <==> forall e: nat, f: nat :: Shown(c, d, e) && Shown(c, d, f) && e != f ==>
                   VoteOf(d.draws[e]) != VoteOf(d.draws[f])
  {
    if RevealedOnce(c, d.from) {
      forall e: nat, f: nat | Shown(c, d, e) && Shown(c, d, f) && e != f
        ensures VoteOf(d.draws[e]) != VoteOf(d.draws[f])
      {
        RevealedOnceDistinct(c, d, e, f);
      }
    } else {
      var e, f := RevealedTwiceCoincides(c, prevotes, d, hash);
    }
  }

  lemma RevealedOnceDistinct(c: Ledger, d: Diary, e: nat, f: nat)
    requires Labelled(c, d.from, d.taken, d.draws) && RevealedOnce(c, d.from) && Shown(c, d, e) && Shown(c, d, f) && e != f
    ensures VoteOf(d.draws[e]) != VoteOf(d.draws[f])
  {
    var j: nat :| Reveals(c, d, j, e);
    var k: nat :| Reveals(c, d, k, f);
    RevealsItsDraw(c, d, j, e);
    RevealsItsDraw(c, d, k, f);
  }

  lemma RevealedTwiceCoincides(c: Ledger, prevotes: map<string, Prevote>, d: Diary, hash: string -> string)
    returns (e: nat, f: nat)
    requires Labelled(c, d.from, d.taken, d.draws) && Holdings(c, prevotes, d.origins, d.taken, d.draws, hash)
    requires TakenOnce(d.taken, |d.draws|) && !RevealedOnce(c, d.from)
    ensures Shown(c, d, e) && Shown(c, d, f) && e != f && VoteOf(d.draws[e]) == VoteOf(d.draws[f])
  {
    var j, k, m: Msg :| d.from <= j < |c.sent| && d.from <= k < |c.sent| && m.VoteMsg?
                        && m in c.sent[j].tx.msgs && m in c.sent[k].tx.msgs && c.sent[j].call != c.sent[k].call;
    e := RevealIsOfADraw(c, prevotes, d, hash, j, m);
    f := RevealIsOfADraw(c, prevotes, d, hash, k, m);
  }

  lemma RevealsItsDraw(c: Ledger, d: Diary, k: nat, e: nat)
    requires Labelled(c, d.from, d.taken, d.draws) && Reveals(c, d, k, e)
    ensures VoteOf(d.draws[e]) in c.sent[k].tx.msgs
  {
    assert LabelledBy(c.sent[k], d.taken, d.draws);
  }
}
