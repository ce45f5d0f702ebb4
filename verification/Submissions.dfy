/** What submission calls do to the chain and to the stored prevotes, one by one and over whole runs:
    pkg/feeder/voter/voter.go, lines 266 to 372. */
module Submissions {
  import opened Wrappers
  import opened Ledger
  import opened Sorting
  import opened Tuples
  import opened Oracle
  import opened Agreement

  /** How one submission for a validator went. `lost` is the prevote whose transaction failed, `tx`
      the transaction found landed with code 0. */
  datatype Submission =
    | NoPrevote
    | Voted(prevote: Prevote, tx: Tx)
    | RecoveryNotCreated(lost: Prevote)
    | Recovered(lost: Prevote, prevote: Prevote, tx: Tx)
    | Failed(lost: Prevote, second: Prevote)

  /** One submission call for validator `v` with these prices: the ledger before it, between its two
      rounds and after it, and what is stored and recorded before and after. */
  datatype Step = Step(v: string, prices: seq<Price>, s: Submission, c: Ledger, mid: Ledger, c': Ledger,
                       before: map<string, Prevote>, after: map<string, Prevote>, d: Diary, d': Diary)

  /** One round of attempts for `p`, all with messages `msgs`; `landed` was signed last and found
      landed with code 0, if the round succeeded. */
  ghost predicate RoundRan(c: Ledger, c': Ledger, msgs: seq<Msg>, call: nat, v: string, hash: string -> string,
                           p: Prevote, landed: Option<Tx>)
  {
    && Opens(p, hash, v)
    && Evolves(c, c', msgs, call)
    && (landed.Some? ==> landed.value.msgs == msgs && c'.Landed(landed.value, 0) && LastSentIs(c', landed.value))
  }

  function PrevotesAfter(before: map<string, Prevote>, v: string, s: Submission): map<string, Prevote> {
    match s
    case NoPrevote => before
    case Voted(p, _) => before[v := p]
    case RecoveryNotCreated(_) => before - {v}
    case Recovered(_, p, _) => before[v := p]
    case Failed(_, _) => before - {v}
  }

  /** The record of the call; its rounds began at `c` and `mid`. */
  function DiaryAfter(d: Diary, v: string, s: Submission, c: Ledger, mid: Ledger): Diary {
    match s
    case NoPrevote => d.Idle()
    case Voted(p, tx) => d.Begun(v).Drawn(v, p).Kept(v, c, tx)
    case RecoveryNotCreated(lost) => d.Begun(v).Drawn(v, lost)
    case Recovered(lost, p, tx) => d.Begun(v).Drawn(v, lost).Drawn(v, p).Kept(v, mid, tx)
    case Failed(lost, second) => d.Begun(v).Drawn(v, lost).Drawn(v, second)
  }

  /** The first round reveals what is stored and commits anew; a recovery round commits only. */
  ghost predicate RoundsRan(x: Step, hash: string -> string) {
    var stored, call := Stored(x.before, x.v), |x.d.taken|;
    match x.s
    case NoPrevote => x.mid == x.c && x.c' == x.c
    case Voted(p, tx) =>
      RoundRan(x.c, x.mid, CombinedMessages(stored, p, x.v), call, x.v, hash, p, Some(tx)) && x.c' == x.mid
    case RecoveryNotCreated(lost) =>
      RoundRan(x.c, x.mid, CombinedMessages(stored, lost, x.v), call, x.v, hash, lost, None) && x.c' == x.mid
    case Recovered(lost, p, tx) =>
      && RoundRan(x.c, x.mid, CombinedMessages(stored, lost, x.v), call, x.v, hash, lost, None)
      && RoundRan(x.mid, x.c', [p.msg], call, x.v, hash, p, Some(tx))
    case Failed(lost, second) =>
      && RoundRan(x.c, x.mid, CombinedMessages(stored, lost, x.v), call, x.v, hash, lost, None)
      && RoundRan(x.mid, x.c', [second.msg], call, x.v, hash, second, None)
  }

  ghost predicate SubmissionRan(x: Step, hash: string -> string) {
    && RoundsRan(x, hash)
    && x.after == PrevotesAfter(x.before, x.v, x.s)
    && x.d' == DiaryAfter(x.d, x.v, x.s, x.c, x.mid)
  }

  /** The step of a submission that went as `s` tells. */
  function StepOf(v: string, prices: seq<Price>, s: Submission, c: Ledger, mid: Ledger, c': Ledger,
                  before: map<string, Prevote>, d: Diary): Step
  {
    Step(v, prices, s, c, mid, c', before, PrevotesAfter(before, v, s), d, DiaryAfter(d, v, s, c, mid))
  }

  /** The prevotes that a submission makes. */
  function MadeIn(s: Submission): seq<Prevote> {
    match s
    case NoPrevote => []
    case Voted(p, _) => [p]
    case RecoveryNotCreated(lost) => [lost]
    case Recovered(lost, p, _) => [lost, p]
    case Failed(lost, second) => [lost, second]
  }

  /** All of them list the prices of the call. */
  ghost predicate MadeFor(x: Step, format: real -> string) {
    MadeList(x.s, x.prices, format)
  }

  ghost predicate MadeList(s: Submission, prices: seq<Price>, format: real -> string) {
    forall p :: p in MadeIn(s) ==> Lists(p, prices, format)
  }

  ghost predicate AllMadeFor(run: seq<Step>, format: real -> string) {
    forall i {:trigger MadeFor(run[i], format)} :: 0 <= i < |run| ==> MadeFor(run[i], format)
  }

  lemma AllMadeOneMore(run: seq<Step>, x: Step, format: real -> string)
    requires AllMadeFor(run, format) && MadeFor(x, format)
    ensures AllMadeFor(run + [x], format)
  {
    forall i | 0 <= i < |run + [x]| ensures MadeFor((run + [x])[i], format) {
      if i < |run| {
        assert MadeFor(run[i], format);
      }
    }
  }

  /** Each is made with a salt of its own, drawn for it; one more draw if a prevote could not be made. */
  ghost predicate Salted(s: Submission, salts: seq<Option<string>>) {
    && |salts| == |MadeIn(s)| + (if s.NoPrevote? || s.RecoveryNotCreated? then 1 else 0)
    && forall i :: 0 <= i < |MadeIn(s)| ==> salts[i] == Some(MadeIn(s)[i].salt)
  }

  // ---------- one submission keeps the invariant ----------

  lemma StoredAnew(before: map<string, Prevote>, v: string, p: Prevote)
    ensures (before - {v})[v := p] == before[v := p]
  {
  }

  lemma FirstRoundStarts(c: Ledger, before: map<string, Prevote>, d: Diary, v: string, hash: string -> string,
                         p: Prevote, d': Diary)
    requires Consistent(c, before, d, hash) && Opens(p, hash, v) && d' == d.Begun(v).Drawn(v, p)
    ensures Consistent(c, before - {v}, d', hash)
    ensures Ready(c, d', hash, v, CombinedMessages(Stored(before, v), p, v))
    ensures d'.draws != [] && d'.draws[|d'.draws| - 1] == Draw(v, p) && Some(|d'.draws| - 1) !in d'.taken
    ensures |d'.taken| == |d.taken| + 1
  {
    BegunKeepsConsistent(c, before, d, hash, v);
    DrawnKeepsConsistent(c, before - {v}, d.Begun(v), hash, v, p);
    StoredIsReady(c, before, d, hash, v, p);
  }

  lemma FirstRoundKeepsConsistent(c: Ledger, c': Ledger, before: map<string, Prevote>, d: Diary, v: string,
                                  hash: string -> string, p: Prevote, landed: Option<Tx>)
    requires Consistent(c, before, d, hash)
    requires RoundRan(c, c', CombinedMessages(Stored(before, v), p, v), |d.taken|, v, hash, p, landed)
    ensures Consistent(c', before - {v}, d.Begun(v).Drawn(v, p), hash)
    ensures landed.Some? ==> Consistent(c', before[v := p], d.Begun(v).Drawn(v, p).Kept(v, c, landed.value), hash)
  {
    var d' := d.Begun(v).Drawn(v, p);
    FirstRoundStarts(c, before, d, v, hash, p, d');
    StoredAnew(before, v, p);
    RoundEnds(c, c', before - {v}, d', hash, v, p, CombinedMessages(Stored(before, v), p, v), landed);
  }

  lemma RecoveryKeepsConsistent(c: Ledger, c': Ledger, before: map<string, Prevote>, d: Diary, v: string,
                                hash: string -> string, p: Prevote, landed: Option<Tx>)
    requires Consistent(c, before, d, hash) && v !in before && d.taken != []
    requires RoundRan(c, c', [p.msg], |d.taken| - 1, v, hash, p, landed)
    ensures Consistent(c', before, d.Drawn(v, p), hash)
    ensures landed.Some? ==> Consistent(c', before[v := p], d.Drawn(v, p).Kept(v, c, landed.value), hash)
  {
    DrawnKeepsConsistent(c, before, d, hash, v, p);
    AloneIsReady(c, d.Drawn(v, p), hash, v, p);
    RoundEnds(c, c', before, d.Drawn(v, p), hash, v, p, [p.msg], landed);
  }

  lemma BothRoundsKeepConsistent(c: Ledger, mid: Ledger, c': Ledger, before: map<string, Prevote>, d: Diary, v: string,
                                 hash: string -> string, lost: Prevote, p: Prevote, landed: Option<Tx>)
    requires Consistent(c, before, d, hash)
    requires RoundRan(c, mid, CombinedMessages(Stored(before, v), lost, v), |d.taken|, v, hash, lost, None)
    requires RoundRan(mid, c', [p.msg], |d.taken|, v, hash, p, landed)
    ensures Consistent(c', before - {v}, d.Begun(v).Drawn(v, lost).Drawn(v, p), hash)
    ensures landed.Some? ==>
              Consistent(c', before[v := p], d.Begun(v).Drawn(v, lost).Drawn(v, p).Kept(v, mid, landed.value), hash)
  {
    FirstRoundKeepsConsistent(c, mid, before, d, v, hash, lost, None);
    StoredAnew(before, v, p);
    RecoveryKeepsConsistent(mid, c', before - {v}, d.Begun(v).Drawn(v, lost), v, hash, p, landed);
  }

  /** However a submission goes, and whatever lands meanwhile, the invariant holds again after it. */
  lemma SubmissionKeepsConsistent(x: Step, hash: string -> string)
    requires Consistent(x.c, x.before, x.d, hash) && SubmissionRan(x, hash)
    ensures Consistent(x.c', x.after, x.d', hash)
  {
    match x.s
    case NoPrevote =>
      IdleKeepsConsistent(x.c, x.before, x.d, hash);
    case Voted(p, tx) =>
      FirstRoundKeepsConsistent(x.c, x.mid, x.before, x.d, x.v, hash, p, Some(tx));
    case RecoveryNotCreated(lost) =>
      FirstRoundKeepsConsistent(x.c, x.mid, x.before, x.d, x.v, hash, lost, None);
    case Recovered(lost, p, tx) =>
      BothRoundsKeepConsistent(x.c, x.mid, x.c', x.before, x.d, x.v, hash, lost, p, Some(tx));
    case Failed(lost, second) =>
      BothRoundsKeepConsistent(x.c, x.mid, x.c', x.before, x.d, x.v, hash, lost, second, None);
  }

  /** The salts drawn since `before` are those of the prevotes made in `s`. */
  ghost predicate SaltedSince(s: Submission, before: seq<Option<string>>, salts: seq<Option<string>>) {
    before <= salts && Salted(s, salts[|before|..])
  }

  /** One draw, for `p` if a prevote was made. */
  ghost predicate DrawnFor(p: Option<Prevote>, before: seq<Option<string>>, salts: seq<Option<string>>) {
    && before <= salts && |salts| == |before| + 1
    && (p.Some? ==> salts[|before|] == Some(p.value.salt))
  }

  lemma FirstMade(s: Submission, first: Option<Prevote>, prices: seq<Price>, format: real -> string,
                  before: seq<Option<string>>, salts: seq<Option<string>>)
    requires if first.Some? then s.Voted? && s.prevote == first.value && Lists(first.value, prices, format) else s.NoPrevote?
    requires DrawnFor(first, before, salts)
    ensures MadeList(s, prices, format) && SaltedSince(s, before, salts)
  {
  }

  /** The prevotes that a failed first round and a recovery make, and the salts they draw. */
  lemma RecoveryMade(s: Submission, lost: Prevote, second: Option<Prevote>, prices: seq<Price>, format: real -> string,
                     before: seq<Option<string>>, middle: seq<Option<string>>, salts: seq<Option<string>>)
    requires MadeIn(s) == [lost] + (if second.Some? then [second.value] else [])
    requires s.RecoveryNotCreated? <==> second.None?
    requires !s.NoPrevote? && Lists(lost, prices, format) && (second.Some? ==> Lists(second.value, prices, format))
    requires DrawnFor(Some(lost), before, middle) && DrawnFor(second, middle, salts)
    ensures MadeList(s, prices, format) && SaltedSince(s, before, salts)
  {
  }

  /** A failed first round and a recovery make a submission. */
  lemma RecoveryRan(v: string, prices: seq<Price>, c: Ledger, mid: Ledger, c': Ledger, before: map<string, Prevote>,
                    d: Diary, hash: string -> string, lost: Prevote, second: Option<Prevote>, landed: Option<Tx>)
    returns (s: Submission)
    requires RoundRan(c, mid, CombinedMessages(Stored(before, v), lost, v), |d.taken|, v, hash, lost, None)
    requires second.None? ==> c' == mid && landed.None?
    requires second.Some? ==> RoundRan(mid, c', [second.value.msg], |d.taken|, v, hash, second.value, landed)
    ensures RoundsRan(StepOf(v, prices, s, c, mid, c', before, d), hash)
    ensures MadeIn(s) == [lost] + (if second.Some? then [second.value] else [])
    ensures s == if second.None? then RecoveryNotCreated(lost)
                 else if landed.Some? then Recovered(lost, second.value, landed.value) else Failed(lost, second.value)
  {
    s := if second.None? then RecoveryNotCreated(lost)
         else if landed.Some? then Recovered(lost, second.value, landed.value) else Failed(lost, second.value);
  }

  // ---------- runs ----------

  function EmptyDiary(start: Ledger): Diary {
    Diary(|start.sent|, [], [], map[])
  }

  function DiaryOf(start: Ledger, run: seq<Step>): Diary {
    if run == [] then EmptyDiary(start) else run[|run| - 1].d'
  }

  function StoreOf(run: seq<Step>): map<string, Prevote> {
    if run == [] then map[] else run[|run| - 1].after
  }

  function LedgerOf(start: Ledger, run: seq<Step>): Ledger {
    if run == [] then start else run[|run| - 1].c'
  }

  /** A run of submissions from a ledger with any history and with nothing stored: each begins with
      what the one before left, after some more landings. */
  ghost predicate IsRun(start: Ledger, run: seq<Step>, hash: string -> string) {
    forall i {:trigger Follows(start, run[..i], run[i], hash)} :: 0 <= i < |run| ==> Follows(start, run[..i], run[i], hash)
  }

  ghost predicate Follows(start: Ledger, run: seq<Step>, x: Step, hash: string -> string) {
    && SubmissionRan(x, hash)
    && x.d == DiaryOf(start, run) && x.before == StoreOf(run) && Settles(LedgerOf(start, run), x.c)
  }

  lemma OneMoreStep(start: Ledger, run: seq<Step>, x: Step, hash: string -> string)
    requires IsRun(start, run, hash) && Follows(start, run, x, hash)
    ensures IsRun(start, run + [x], hash)
  {
    forall i | 0 <= i < |run + [x]| ensures Follows(start, (run + [x])[..i], (run + [x])[i], hash) {
      assert (run + [x])[..i] == run[..i];
      assert run[..|run|] == run;
    }
  }

  /** A submission goes on from where the run is. */
  lemma RunGoesOn(start: Ledger, run: seq<Step>, x: Step, hash: string -> string)
    requires IsRun(start, run, hash) && Follows(start, run, x, hash)
    ensures IsRun(start, run + [x], hash)
    ensures StoreOf(run + [x]) == x.after && LedgerOf(start, run + [x]) == x.c' && DiaryOf(start, run + [x]) == x.d'
    ensures |x.d'.taken| == |x.d.taken| + 1
  {
    OneMoreStep(start, run, x, hash);
  }

  lemma PrefixIsRun(start: Ledger, run: seq<Step>, hash: string -> string, n: nat)
    requires IsRun(start, run, hash) && n <= |run|
    ensures IsRun(start, run[..n], hash)
  {
    forall i | 0 <= i < n ensures Follows(start, run[..n][..i], run[..n][i], hash) {
      assert run[..n][..i] == run[..i];
    }
  }

  lemma InitiallyConsistent(start: Ledger, hash: string -> string)
    requires Sound(start)
    ensures Consistent(start, map[], EmptyDiary(start), hash)
  {
  }

  /** After every run, the stored prevotes, the record and the chain are consistent. */
  lemma {:induction false} RunIsConsistent(start: Ledger, run: seq<Step>, hash: string -> string)
    requires Sound(start) && IsRun(start, run, hash)
    ensures Consistent(LedgerOf(start, run), StoreOf(run), DiaryOf(start, run), hash)
  {
    if run == [] {
      InitiallyConsistent(start, hash);
    } else {
      var n := |run| - 1;
      assert Follows(start, run[..n], run[n], hash);
      PrefixIsRun(start, run, hash, n);
      RunIsConsistent(start, run[..n], hash);
      SettlesKeepsConsistent(LedgerOf(start, run[..n]), run[n].c, run[n].before, run[n].d, hash);
      SubmissionKeepsConsistent(run[n], hash);
    }
  }

  // ---------- what the last turn of a validator decides ----------

  /** What is stored for `v` after turn `i` and where it comes from stays so while the others have their turns. */
  lemma {:induction false} KeptSince(start: Ledger, run: seq<Step>, hash: string -> string, i: nat, v: string)
    requires IsRun(start, run, hash) && i < |run|
    requires forall k :: i < k < |run| ==> run[k].v != v
    ensures SameFor(v, StoreOf(run), DiaryOf(start, run), run[i].after, run[i].d')
  {
    var n := |run| - 1;
    if i < n {
      PrefixIsRun(start, run, hash, n);
      KeptSince(start, run[..n], hash, i, v);
      OthersKeep(start, run, hash, v);
    }
  }

  /** The same is stored for `v`, from the same origin. */
  ghost predicate SameFor(v: string, prevotes: map<string, Prevote>, d: Diary, prevotes': map<string, Prevote>, d': Diary) {
    && Stored(prevotes, v) == Stored(prevotes', v)
    && (v in d.origins <==> v in d'.origins) && (v in d.origins ==> d.origins[v] == d'.origins[v])
  }

  lemma OthersKeep(start: Ledger, run: seq<Step>, hash: string -> string, v: string)
    requires IsRun(start, run, hash) && run != [] && run[|run| - 1].v != v
    ensures var front := run[..|run| - 1];
            SameFor(v, StoreOf(run), DiaryOf(start, run), StoreOf(front), DiaryOf(start, front))
  {
    assert Follows(start, run[..|run| - 1], run[|run| - 1], hash);
  }

  /** Where the prevote that a submission stored comes from. */
  lemma ConfirmedOrigin(x: Step, hash: string -> string)
    requires SubmissionRan(x, hash) && (x.s.Voted? || x.s.Recovered?)
    ensures Stored(x.after, x.v) == Some(x.s.prevote)
    ensures x.v in x.d'.origins && x.d'.origins[x.v].tx == x.s.tx && x.d'.origins[x.v].start == ConfirmingRound(x)
  {
  }

  /** The ledger when the round that confirmed a prevote began. */
  function ConfirmingRound(x: Step): Ledger {
    if x.s.Recovered? then x.mid else x.c
  }

  /** Agreement over whole runs: however the submissions of all validators went and whatever landed, the
      prevote that a validator's last turn `i` confirmed is stored, and it is the chain's and stays it
      whatever lands later, if its transaction was assured when its round began. */
  lemma LastTurnAgrees(start: Ledger, run: seq<Step>, hash: string -> string, i: nat, c': Ledger)
    requires Sound(start) && IsRun(start, run, hash) && i < |run|
    requires run[i].s.Voted? || run[i].s.Recovered?
    requires forall k :: i < k < |run| ==> run[k].v != run[i].v
    requires Settles(LedgerOf(start, run), c')
    ensures var v, p := run[i].v, run[i].s.prevote;
            && Stored(StoreOf(run), v) == Some(p)
            && AgreesIfAssured(c', ConfirmingRound(run[i]), run[i].s.tx, v, p, hash)
  {
    var v, p := run[i].v, run[i].s.prevote;
    RunIsConsistent(start, run, hash);
    assert Follows(start, run[..i], run[i], hash);
    ConfirmedOrigin(run[i], hash);
    KeptSince(start, run, hash, i, v);
    TracedAgrees(LedgerOf(start, run), c', DiaryOf(start, run).draws, run[i].d'.origins[v], v, p, hash);
  }

  /** Agreement without conditions on the chain's past: it is enough that the account answered with a
      sequence not yet used when the round began, or that the commitment is a new one. */
  lemma FreshTurnAgrees(start: Ledger, run: seq<Step>, hash: string -> string, i: nat, c': Ledger)
    requires Sound(start) && IsRun(start, run, hash) && i < |run|
    requires run[i].s.Voted? || run[i].s.Recovered?
    requires forall k :: i < k < |run| ==> run[k].v != run[i].v
    requires Settles(LedgerOf(start, run), c')
    requires var from, v, p := ConfirmingRound(run[i]), run[i].v, run[i].s.prevote;
             run[i].s.tx.sequence >= from.Sequence() || NeverCommitted(from, v, Commitment(hash, p.salt, p.vote, v))
    ensures var v, p := run[i].v, run[i].s.prevote;
            Stored(StoreOf(run), v) == Some(p) && Stable(c', v, Commitment(hash, p.salt, p.vote, v))
  {
    var v, p, from, tx := run[i].v, run[i].s.prevote, ConfirmingRound(run[i]), run[i].s.tx;
    var committed := Commitment(hash, p.salt, p.vote, v);
    LastTurnAgrees(start, run, hash, i, c');
    assert Follows(start, run[..i], run[i], hash);
    PrefixIsRun(start, run, hash, i);
    ConfirmingRoundSound(start, run[..i], run[i], hash);
    ConfirmedCommits(run[i], hash);
    if tx.sequence >= from.Sequence() {
      FreshSequenceAssures(from, tx, v, committed);
    } else {
      NewCommitmentAssures(from, tx, v, committed);
    }
  }

  lemma ConfirmingRoundSound(start: Ledger, run: seq<Step>, x: Step, hash: string -> string)
    requires Sound(start) && IsRun(start, run, hash) && Follows(start, run, x, hash)
    requires x.s.Voted? || x.s.Recovered?
    ensures Sound(ConfirmingRound(x))
  {
    RunIsConsistent(start, run, hash);
    SettlesKeepsSound(LedgerOf(start, run), x.c);
  }

  lemma ConfirmedCommits(x: Step, hash: string -> string)
    requires SubmissionRan(x, hash) && (x.s.Voted? || x.s.Recovered?)
    ensures PrevoteIn(x.s.tx.msgs, x.v) == Some(Commitment(hash, x.s.prevote.salt, x.s.prevote.vote, x.v))
  {
    var msgs := x.s.tx.msgs;
    assert msgs[|msgs| - 1] == x.s.prevote.msg;
  }

  /** If finding `tx` landed was proof of agreement when its round began at `from`, the chain holds
      the commitment of `p`, and no transaction that can still land changes that. */
  ghost predicate AgreesIfAssured(c: Ledger, from: Ledger, tx: Tx, v: string, p: Prevote, hash: string -> string) {
    var committed := Commitment(hash, p.salt, p.vote, v);
    Assured(from, tx, v, committed) ==> Stable(c, v, committed)
  }

  lemma TracedAgrees(c: Ledger, c': Ledger, draws: seq<Draw>, o: Origin, v: string, p: Prevote, hash: string -> string)
    requires Sound(c) && Traced(c, draws, o, v, p, hash) && Settles(c, c')
    ensures AgreesIfAssured(c', o.start, o.tx, v, p, hash)
  {
    if Assured(o.start, o.tx, v, p.msg.hash) {
      StableUnderSettling(c, c', v, p.msg.hash);
    }
  }

  /** Commit before reveal, in every run: whatever a transaction of the run reveals, its commitment had
      landed with code 0 when the transaction was sent, and if the transaction lands, it lands later. */
  lemma EveryRevealIsCommitted(start: Ledger, run: seq<Step>, hash: string -> string, c': Ledger, k: nat, m: Msg)
    requires Sound(start) && IsRun(start, run, hash) && Settles(LedgerOf(start, run), c')
    requires |start.sent| <= k < |c'.sent| && m in c'.sent[k].tx.msgs && m.VoteMsg?
    ensures CommittedBefore(c', c'.sent[k], m, hash)
    ensures forall j :: c'.sent[k].seen <= j < |c'.log| && c'.log[j].tx == c'.sent[k].tx ==>
              exists i :: 0 <= i < j && c'.log[i].code == 0 && CommitmentOf(m, hash) in c'.log[i].tx.msgs
  {
    RunIsConsistent(start, run, hash);
    var d := DiaryOf(start, run);
    DiaryStarts(start, run, hash);
    SettlesKeepsConsistent(LedgerOf(start, run), c', StoreOf(run), d, hash);
    forall j | c'.sent[k].seen <= j < |c'.log| && c'.log[j].tx == c'.sent[k].tx
      ensures exists i :: 0 <= i < j && c'.log[i].code == 0 && CommitmentOf(m, hash) in c'.log[i].tx.msgs
    {
      LandedRevealFollowsCommitment(c', d.from, hash, k, j, m);
    }
  }

  lemma {:induction false} DiaryStarts(start: Ledger, run: seq<Step>, hash: string -> string)
    requires IsRun(start, run, hash)
    ensures DiaryOf(start, run).from == |start.sent|
  {
    if run != [] {
      var n := |run| - 1;
      assert Follows(start, run[..n], run[n], hash);
      PrefixIsRun(start, run, hash, n);
      DiaryStarts(start, run[..n], hash);
    }
  }

  /** Each prevote that was made is revealed by one submission call at most, in every run. */
  lemma EachDrawRevealedOnce(start: Ledger, run: seq<Step>, hash: string -> string, j: nat, k: nat, e: nat)
    requires Sound(start) && IsRun(start, run, hash)
    requires Reveals(LedgerOf(start, run), DiaryOf(start, run), j, e)
    requires Reveals(LedgerOf(start, run), DiaryOf(start, run), k, e)
    ensures LedgerOf(start, run).sent[j].call == LedgerOf(start, run).sent[k].call
  {
    RunIsConsistent(start, run, hash);
    DrawRevealedInOneCall(LedgerOf(start, run), StoreOf(run), DiaryOf(start, run), hash, j, k, e);
  }

  // ---------- two submissions for the same validator ----------

  /** All that the first round of `x` signs is the reveals and a new commitment. */
  ghost predicate FirstRoundSigns(x: Step, openings: seq<Msg>, hash: string -> string) {
    forall k :: |x.c.sent| <= k < |x.mid.sent| ==>
      exists p :: Opens(p, hash, x.v) && x.mid.sent[k].tx.msgs == openings + [p.msg]
  }

  /** Only one period is missed: after a successful recovery, as after a successful vote, the next
      submission for the validator reveals what was confirmed. After a failed recovery it reveals nothing. */
  lemma NextTurnReveals(start: Ledger, run: seq<Step>, hash: string -> string, i: nat, j: nat)
    requires IsRun(start, run, hash) && i < j < |run| && run[i].v == run[j].v
    requires forall k :: i < k < j ==> run[k].v != run[i].v
    ensures run[i].s.Voted? || run[i].s.Recovered? ==>
              var p := run[i].s.prevote; FirstRoundSigns(run[j], [VoteMsg(p.salt, p.vote, run[j].v)], hash)
    ensures run[i].s.Failed? || run[i].s.RecoveryNotCreated? ==> FirstRoundSigns(run[j], [], hash)
  {
    assert Follows(start, run[..i], run[i], hash) && Follows(start, run[..j], run[j], hash);
    PrefixIsRun(start, run, hash, j);
    KeptSince(start, run[..j], hash, i, run[i].v);
    FirstRoundRevealsStored(run[j], hash);
    StoredAfter(run[i], hash);
  }

  lemma StoredAfter(x: Step, hash: string -> string)
    requires SubmissionRan(x, hash)
    ensures x.s.Voted? || x.s.Recovered? ==> Stored(x.after, x.v) == Some(x.s.prevote)
    ensures x.s.Failed? || x.s.RecoveryNotCreated? ==> Stored(x.after, x.v) == None
    ensures x.s.NoPrevote? ==> Stored(x.after, x.v) == Stored(x.before, x.v)
  {
  }

  lemma FirstRoundRevealsStored(x: Step, hash: string -> string)
    requires SubmissionRan(x, hash)
    ensures x.v in x.before ==>
              var p := x.before[x.v]; FirstRoundSigns(x, [VoteMsg(p.salt, p.vote, x.v)], hash)
    ensures x.v !in x.before ==> FirstRoundSigns(x, [], hash)
  {
    if !x.s.NoPrevote? {
      var p := MadeIn(x.s)[0];
      assert Opens(p, hash, x.v);
      forall k | |x.c.sent| <= k < |x.mid.sent|
        ensures x.mid.sent[k].tx.msgs == CombinedMessages(Stored(x.before, x.v), p, x.v)
      {
      }
    }
  }

  // ---------- how agreement is lost ----------

  /** `tx` is signed and lands at once. */
  function Lands(c: Ledger, tx: Tx, call: nat, code: nat): Ledger {
    var sent := Send(c, tx, call);
    sent.(log := sent.log + [Landing(tx, code)])
  }

  lemma LandsEvolves(c: Ledger, tx: Tx, call: nat, code: nat)
    requires Sound(c) && tx.sequence == c.Sequence()
    ensures Sound(Lands(c, tx, call, code)) && Evolves(c, Lands(c, tx, call, code), tx.msgs, call)
    ensures Lands(c, tx, call, code).Landed(tx, code) && LastSentIs(Lands(c, tx, call, code), tx)
  {
    var c1, c2 := Send(c, tx, call), Lands(c, tx, call, code);
    SendKeepsSound(c, tx, call);
    assert c1.sent[|c.sent|] == Sent(tx, |c.log|, call);
    assert SentBefore(c1, tx, |c.log|);
    SettlesEvolves(c1, c2, tx.msgs, call);
    EvolvesTransitive(c, c1, c2, tx.msgs, call);
    assert c2.log[|c.log|] == Landing(tx, code);
  }

  lemma FirstSubmission(v: string, ps: seq<Price>, p: Prevote, hash: string -> string, t0: Tx, c0: Ledger, c1: Ledger,
                        d0: Diary)
    returns (x: Step)
    requires Opens(p, hash, v) && t0 == Tx(0, [p.msg])
    requires c0 == Ledger(0, [], []) && c1 == Lands(c0, t0, 0, 0) && d0 == EmptyDiary(c0)
    ensures IsStep(x, v, ps, Voted(p, t0), c0, c1, map[], map[v := p], d0)
    ensures SubmissionRan(x, hash) && |x.d'.taken| == 1 && Sound(c1)
  {
    LandsEvolves(c0, t0, 0, 0);
    x := StepOf(v, ps, Voted(p, t0), c0, c1, c1, map[], d0);
    assert CombinedMessages(None, p, v) == [p.msg];
  }

  lemma SecondRounds(v: string, p: Prevote, q: Prevote, hash: string -> string, t0: Tx, t1: Tx,
                     c1: Ledger, mid: Ledger, c2: Ledger, d: Diary)
    requires Opens(p, hash, v) && Opens(q, hash, v) && Sound(c1) && c1.Sequence() == 1 && c1.Landed(t0, 0)
    requires t0 == Tx(0, [p.msg]) && t1 == Tx(1, [NewVote(p, v), q.msg]) && |d.taken| == 1
    requires mid == Lands(c1, t1, 1, 0) && c2 == Send(mid, t0, 1)
    ensures RoundRan(c1, mid, CombinedMessages(Some(p), q, v), 1, v, hash, q, None)
    ensures RoundRan(mid, c2, [p.msg], 1, v, hash, p, Some(t0)) && Sound(c2)
  {
    LandsEvolves(c1, t1, 1, 0);
    SendKeepsSound(mid, t0, 1);
    assert CombinedMessages(Some(p), q, v) == t1.msgs;
    var i :| 0 <= i < |c1.log| && c1.log[i] == Landing(t0, 0);
    assert c2.log[i] == Landing(t0, 0);
  }

  lemma SecondSubmission(v: string, ps: seq<Price>, p: Prevote, q: Prevote, hash: string -> string, t0: Tx, t1: Tx,
                         c1: Ledger, mid: Ledger, c2: Ledger, d: Diary)
    returns (x: Step)
    requires Opens(p, hash, v) && Opens(q, hash, v) && Sound(c1) && c1.Sequence() == 1 && c1.Landed(t0, 0)
    requires t0 == Tx(0, [p.msg]) && t1 == Tx(1, [NewVote(p, v), q.msg]) && |d.taken| == 1
    requires mid == Lands(c1, t1, 1, 0) && c2 == Send(mid, t0, 1)
    ensures IsStep(x, v, ps, Recovered(q, p, t0), c1, c2, map[v := p], map[v := p], d)
    ensures SubmissionRan(x, hash) && |x.d'.taken| == 2 && Sound(c2)
  {
    SecondRounds(v, p, q, hash, t0, t1, c1, mid, c2, d);
    x := StepOf(v, ps, Recovered(q, p, t0), c1, mid, c2, map[v := p], d);
    assert map[v := p][v := p] == map[v := p];
  }

  lemma ThirdSubmission(v: string, ps: seq<Price>, p: Prevote, r: Prevote, hash: string -> string, t2: Tx, c2: Ledger,
                        c3: Ledger, d: Diary)
    returns (x: Step)
    requires Opens(r, hash, v) && Sound(c2) && c2.Sequence() == 2 && |d.taken| == 2
    requires t2 == Tx(2, [NewVote(p, v), r.msg]) && c3 == Lands(c2, t2, 2, 1)
    ensures IsStep(x, v, ps, RecoveryNotCreated(r), c2, c3, map[v := p], map[], d) && SubmissionRan(x, hash)
  {
    LandsEvolves(c2, t2, 2, 1);
    x := StepOf(v, ps, RecoveryNotCreated(r), c2, c3, c3, map[v := p], d);
    assert map[v := p] - {v} == map[];
    assert CombinedMessages(Some(p), r, v) == t2.msgs;
  }

  predicate IsStep(x: Step, v: string, ps: seq<Price>, s: Submission, c: Ledger, c': Ledger, before: map<string, Prevote>,
                   after: map<string, Prevote>, d: Diary)
  {
    x.v == v && x.prices == ps && x.s == s && x.c == c && x.c' == c' && x.before == before && x.after == after && x.d == d
  }

  lemma LastOfTwo(first: Landing, second: Landing, v: string)
    requires second.code == 0 && PrevoteIn(second.tx.msgs, v).Some?
    ensures LastPrevote([first, second], v) == PrevoteIn(second.tx.msgs, v)
  {
  }

  ghost predicate EndsConsistent(x: Step, hash: string -> string) {
    Consistent(x.c', x.after, x.d', hash)
  }

  /** A run of three submissions for `v` that loses agreement. The first commits to `p`. The second
      reveals it and commits to `q`, which lands but is not found; the recovery happens to draw `p` again
      and, on a stale sequence, signs the very transaction of the first submission, whose landing it takes
      for its own. So `p` is stored while the chain holds `q`, and the third submission reveals `p` again. */
  lemma StaleSequenceBreaksAgreement(v: string, ps: seq<Price>, p: Prevote, q: Prevote, r: Prevote, hash: string -> string,
                                     format: real -> string)
    returns (run: seq<Step>)
    requires Opens(p, hash, v) && Opens(q, hash, v) && Opens(r, hash, v) && p.msg != q.msg
    requires Lists(p, ps, format) && Lists(q, ps, format) && Lists(r, ps, format)
    ensures |run| == 3 && IsRun(Ledger(0, [], []), run, hash)
    ensures run[0].v == run[1].v == run[2].v == v && run[0].prices == run[1].prices == run[2].prices == ps
    ensures AllMadeFor(run, format)
    ensures EndsConsistent(run[0], hash) && EndsConsistent(run[1], hash)
    ensures run[0].after == map[v := p] && LastPrevote(run[0].c'.log, v) == Some(p.msg.hash)
    ensures run[1].after == map[v := p] && LastPrevote(run[1].c'.log, v) == Some(q.msg.hash) && q.msg.hash != p.msg.hash
    ensures !RevealedOnce(run[2].c', 0)
  {
    var x0, x1, x2;
    x0, x1, x2, run := StaleSteps(v, ps, p, q, r, hash);
    ThreeMadeFor(x0, x1, x2, p, q, r, ps, format);
  }

  /** Such prevotes exist: same rates, salts 1 and 2. */
  lemma PrevotesThatDiffer(v: string, ps: seq<Price>, order: seq<Price>, hash: string -> string, format: real -> string)
    returns (p: Prevote, q: Prevote)
    requires forall a, b :: hash(a) == hash(b) ==> a == b
    requires ps != [] && Sorted(order, ByDenom) && multiset(order) == multiset(ps)
    ensures Opens(p, hash, v) && Opens(q, hash, v) && p.msg != q.msg
    ensures Lists(p, ps, format) && Lists(q, ps, format)
  {
    var vote := TuplesText(PriceTuples(order, format));
    p := Prevote(PrevoteMsg(Commitment(hash, "1", vote, v), v), "1", vote);
    q := Prevote(PrevoteMsg(Commitment(hash, "2", vote, v), v), "2", vote);
    assert ("1" + ":" + vote + ":" + v)[0] != ("2" + ":" + vote + ":" + v)[0];
  }

  lemma ThreeMadeFor(x0: Step, x1: Step, x2: Step, p: Prevote, q: Prevote, r: Prevote, ps: seq<Price>,
                     format: real -> string)
    requires MadeIn(x0.s) == [p] && MadeIn(x1.s) == [q, p] && MadeIn(x2.s) == [r]
    requires x0.prices == x1.prices == x2.prices == ps
    requires Lists(p, ps, format) && Lists(q, ps, format) && Lists(r, ps, format)
    ensures AllMadeFor([x0, x1, x2], format)
  {
    var run := [x0, x1, x2];
    forall i | 0 <= i < 3 ensures MadeFor(run[i], format) {
      forall y | y in MadeIn(run[i].s) ensures y == p || y == q || y == r {
      }
    }
  }

  lemma StaleSteps(v: string, ps: seq<Price>, p: Prevote, q: Prevote, r: Prevote, hash: string -> string)
    returns (x0: Step, x1: Step, x2: Step, run: seq<Step>)
    requires Opens(p, hash, v) && Opens(q, hash, v) && Opens(r, hash, v)
    ensures run == [x0, x1, x2] && IsRun(Ledger(0, [], []), run, hash)
    ensures EndsConsistent(x0, hash) && EndsConsistent(x1, hash)
    ensures x0.v == x1.v == x2.v == v && x0.prices == x1.prices == x2.prices == ps
    ensures MadeIn(x0.s) == [p] && MadeIn(x1.s) == [q, p] && MadeIn(x2.s) == [r]
    ensures x0.after == map[v := p] && LastPrevote(x0.c'.log, v) == Some(p.msg.hash)
    ensures x1.after == map[v := p] && LastPrevote(x1.c'.log, v) == Some(q.msg.hash)
    ensures !RevealedOnce(x2.c', 0)
  {
    var c0 := Ledger(0, [], []);
    var t0, t1, t2 := Tx(0, [p.msg]), Tx(1, [NewVote(p, v), q.msg]), Tx(2, [NewVote(p, v), r.msg]);
    var c1 := Lands(c0, t0, 0, 0);
    var mid := Lands(c1, t1, 1, 0);
    var c2 := Send(mid, t0, 1);
    var c3 := Lands(c2, t2, 2, 1);
    StaleLedgers(c1, c2, c3, t0, t1, t2, v, NewVote(p, v));
    x0 := FirstSubmission(v, ps, p, hash, t0, c0, c1, EmptyDiary(c0));
    x1 := SecondSubmission(v, ps, p, q, hash, t0, t1, c1, mid, c2, x0.d');
    x2 := ThirdSubmission(v, ps, p, r, hash, t2, c2, c3, x1.d');
    run := RunOfThree(c0, x0, x1, x2, hash);
  }

  lemma StaleLedgers(c1: Ledger, c2: Ledger, c3: Ledger, t0: Tx, t1: Tx, t2: Tx, v: string, opening: Msg)
    requires c1 == Lands(Ledger(0, [], []), t0, 0, 0)
    requires c2 == Send(Lands(c1, t1, 1, 0), t0, 1) && c3 == Lands(c2, t2, 2, 1)
    requires PrevoteIn(t0.msgs, v).Some? && PrevoteIn(t1.msgs, v).Some?
    requires opening.VoteMsg? && opening in t1.msgs && opening in t2.msgs
    ensures c1.Landed(t0, 0) && LastPrevote(c1.log, v) == PrevoteIn(t0.msgs, v)
    ensures LastPrevote(c2.log, v) == PrevoteIn(t1.msgs, v)
    ensures !RevealedOnce(c3, 0)
  {
    assert c1.log == [Landing(t0, 0)] && c1.log[0] == Landing(t0, 0);
    assert c2.log == [Landing(t0, 0), Landing(t1, 0)];
    LastOfTwo(Landing(t0, 0), Landing(t1, 0), v);
    assert c3.sent[1] == Sent(t1, 1, 1) && c3.sent[3] == Sent(t2, 2, 2);
  }

  ghost predicate InSequence(start: Ledger, x0: Step, x1: Step, x2: Step, hash: string -> string) {
    && SubmissionRan(x0, hash) && SubmissionRan(x1, hash) && SubmissionRan(x2, hash)
    && x0.c == start && x0.before == map[] && x0.d == EmptyDiary(start)
    && x1.c == x0.c' && x1.before == x0.after && x1.d == x0.d'
    && x2.c == x1.c' && x2.before == x1.after && x2.d == x1.d'
  }

  lemma RunOfThree(start: Ledger, x0: Step, x1: Step, x2: Step, hash: string -> string) returns (run: seq<Step>)
    requires Sound(start) && InSequence(start, x0, x1, x2, hash)
    ensures run == [x0, x1, x2] && IsRun(start, run, hash)
    ensures EndsConsistent(x0, hash) && EndsConsistent(x1, hash)
  {
    run := [x0, x1, x2];
    assert run[..0] == [] && run[..1] == [x0] && run[..2] == [x0, x1];
    assert Follows(start, run[..0], run[0], hash);
    assert Follows(start, run[..1], run[1], hash);
    assert Follows(start, run[..2], run[2], hash);
    EndsOfTwo(start, x0, x1, x2, hash);
  }

  lemma EndsOfTwo(start: Ledger, x0: Step, x1: Step, x2: Step, hash: string -> string)
    requires Sound(start) && InSequence(start, x0, x1, x2, hash)
    ensures EndsConsistent(x0, hash) && EndsConsistent(x1, hash)
  {
    InitiallyConsistent(start, hash);
    SubmissionKeepsConsistent(x0, hash);
    SubmissionKeepsConsistent(x1, hash);
  }
}
