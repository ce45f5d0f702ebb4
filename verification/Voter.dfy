/** The commit-reveal voting loop: pkg/feeder/voter/voter.go. */
module Voter {
  import opened Wrappers
  import opened Ledger
  import opened Node
  import opened Broadcaster
  import opened Oracle
  import opened Conversion
  import opened Agreement
  import opened Submissions
  import opened Schedule

  datatype VotingState = Idle | FetchPrices | SubmitVote | WaitPeriod | Error

  datatype VoteError =
    | FetchFailed(text: string)
    | WhitelistNotLoaded
    | NoWhitelistedPrices
    | PrevoteFailed(cause: PrevoteError)
    | BroadcastFailed(attempts: int)
    | TxNotVerified(text: string)
    | TxFailed(code: nat)

  /** One round: the results of its broadcasts and the queries for its transaction. */
  datatype Round = Round(results: seq<Result<Tx, string>>, fetches: seq<Fetch>)

  /** The last broadcast was accepted, and the query for its transaction answered code 0. */
  ghost predicate Confirms(round: Round) {
    && round.results != [] && round.results[|round.results| - 1].Ok?
    && round.fetches == [Fetch(round.results[|round.results| - 1].value, Ok(0))]
  }

  /** The rounds of a submission, each with what its success means for the outcome. */
  ghost predicate RoundsMatch(s: Submission, rounds: seq<Round>) {
    match s
    case NoPrevote => rounds == []
    case Voted(_, tx) => |rounds| == 1 && Confirms(rounds[0]) && Accepts(rounds[0], tx)
    case RecoveryNotCreated(_) => |rounds| == 1 && !Confirms(rounds[0])
    case Recovered(_, _, tx) =>
      |rounds| == 2 && !Confirms(rounds[0]) && Confirms(rounds[1]) && Accepts(rounds[1], tx)
    case Failed(_, _) => |rounds| == 2 && !Confirms(rounds[0]) && !Confirms(rounds[1])
  }

  /** What the rounds of a submission say about its outcome: it is a success exactly if the last broadcast of
      the first or, after a failed first, of the second round was accepted and the query for exactly that
      transaction answered code 0. */
  lemma OutcomeExactly(s: Submission, rounds: seq<Round>)
    requires RoundsMatch(s, rounds)
    ensures var confirmed := (round: Round) =>
              && round.results != [] && round.results[|round.results| - 1].Ok?
              && round.fetches == [Fetch(round.results[|round.results| - 1].value, Ok(0))];
            && (s.NoPrevote? <==> |rounds| == 0)
            && (s.Voted? <==> |rounds| == 1 && confirmed(rounds[0]))
            && (s.RecoveryNotCreated? <==> |rounds| == 1 && !confirmed(rounds[0]))
            && (s.Recovered? <==> |rounds| == 2 && !confirmed(rounds[0]) && confirmed(rounds[1]))
            && (s.Failed? <==> |rounds| == 2 && !confirmed(rounds[0]) && !confirmed(rounds[1]))
    ensures s.Voted? ==> rounds[0].results[|rounds[0].results| - 1] == Ok(s.tx)
    ensures s.Recovered? ==> rounds[1].results[|rounds[1].results| - 1] == Ok(s.tx)
  {
  }

  /** How a round ended: confirmed, with its transaction, or not. */
  ghost predicate RoundEnded(r: Result<(), VoteError>, landed: Option<Tx>, round: Round) {
    && (r.Ok? <==> Confirms(round)) && (landed.Some? <==> r.Ok?)
    && (landed.Some? ==> Accepts(round, landed.value))
    && (r.Err? ==> !r.error.PrevoteFailed?)
  }

  ghost predicate Accepts(round: Round, tx: Tx) {
    round.results != [] && round.results[|round.results| - 1] == Ok(tx)
  }

  /** Each pair names the validator of its submission. */
  ghost predicate Matches(submissions: seq<(nat, string)>, run: seq<Step>) {
    |submissions| == |run| && forall i {:trigger submissions[i]} :: 0 <= i < |run| ==> submissions[i].1 == run[i].v
  }

  /** The submissions from index `from` on were made for these prices. */
  ghost predicate MadeSince(run: seq<Step>, from: nat, oraclePrices: seq<Price>) {
    forall i :: from <= i < |run| ==> run[i].prices == oraclePrices
  }

  /** They were made for the rates converted from the prices fetched. */
  ghost predicate ServesFetched(run: seq<Step>, from: nat, prices: map<string, real>, whitelist: seq<string>) {
    exists rates :: IsConversion(rates, prices, whitelist) && MadeSince(run, from, rates)
  }

  /** The submission was made for the rates converted from the prices fetched at event `j`. */
  ghost predicate MadeAt(x: Step, events: seq<Event>, j: nat, whitelist: seq<string>) {
    && j < |events| && events[j].PeriodStarted? && events[j].fetched.Ok?
    && IsConversion(x.prices, events[j].fetched.value, WhitelistAt(whitelist, events[..j]))
  }

  ghost predicate MadeBefore(x: Step, events: seq<Event>, n: nat, whitelist: seq<string>) {
    exists j :: 0 <= j < n && MadeAt(x, events, j, whitelist)
  }

  /** Every submission from index `from` on was made for prices fetched at one of the first `n` events. */
  ghost predicate AllMadeBefore(run: seq<Step>, from: nat, events: seq<Event>, n: nat, whitelist: seq<string>) {
    forall k {:trigger MadeBefore(run[k], events, n, whitelist)} :: from <= k < |run| ==>
      MadeBefore(run[k], events, n, whitelist)
  }

  /** What the run commits to, end to end: the vote string of every prevote made tells exactly the rates
      converted from prices fetched at one event, one for each denom whitelisted then. */
  lemma CommittedRatesAreFetched(x: Step, p: Prevote, events: seq<Event>, n: nat, whitelist: seq<string>,
                                 format: real -> string)
    returns (j: nat)
    requires MadeFor(x, format) && p in MadeIn(x.s) && MadeBefore(x, events, n, whitelist)
    ensures j < n && MadeAt(x, events, j, whitelist)
    ensures VoteTells(p, x.prices, events[j].fetched.value, WhitelistAt(whitelist, events[..j]), format)
  {
    j :| 0 <= j < n && MadeAt(x, events, j, whitelist);
    var prices, denoms := events[j].fetched.value, WhitelistAt(whitelist, events[..j]);
    if Votable(x.prices, prices, denoms, format) {
      VoteTellsFetchedRates(p, x.prices, prices, denoms, format);
    }
  }

  lemma OneEventMore(run: seq<Step>, run': seq<Step>, from: nat, events: seq<Event>, n: nat, whitelist: seq<string>,
                     last: nat)
    requires run <= run' && n < |events| && AllMadeBefore(run, from, events, n, whitelist)
    requires ServedEvent(run, run', last, WhitelistAt(whitelist, events[..n]), events[n])
    ensures AllMadeBefore(run', from, events, n + 1, whitelist)
  {
    forall k | from <= k < |run'| ensures MadeBefore(run'[k], events, n + 1, whitelist) {
      if k < |run| {
        assert MadeBefore(run[k], events, n, whitelist);
      } else {
        assert MadeAt(run'[k], events, n, whitelist);
      }
    }
  }

  /** An event that submits adds submissions for the prices fetched with it; others add none. */
  ghost predicate ServedEvent(run: seq<Step>, run': seq<Step>, last: nat, whitelist: seq<string>, event: Event) {
    if Submits(last, whitelist, event) then ServesFetched(run', |run|, event.fetched.value, whitelist) else run' == run
  }

  lemma ServesConverted(run: seq<Step>, from: nat, rates: seq<Price>, prices: map<string, real>, whitelist: seq<string>)
    requires IsConversion(rates, prices, whitelist) && MadeSince(run, from, rates)
    ensures ServesFetched(run, from, prices, whitelist)
  {
  }

  class Voter {
    const node: Node
    const broadcaster: Broadcaster
    const validators: seq<string>
    const maxRetries: int
    const hash: string -> string
    const format: real -> string

    var lastVotePeriod: nat
    var prevotes: map<string, Prevote>
    var state: VotingState
    var votePeriodBlocks: nat
    var whitelist: seq<string>

    /** Number of submission calls so far; it only labels what is signed. */
    var calls: nat
    /** The ledger in the beginning and the submissions so far. */
    ghost const start: Ledger
    ghost var run: seq<Step>
    /** The (period, validator) pair of each submission. */
    ghost var submissions: seq<(nat, string)>
    /** The rounds made and the salts drawn. */
    ghost var rounds: seq<Round>
    ghost var salts: seq<Option<string>>

    /** Between submissions: what happened is a run, and what is stored is what the run left. */
    ghost predicate Valid()
      reads this, node
    {
      && broadcaster.node == node
      && Sound(start) && Sound(node.ledger)
      && IsRun(start, run, hash) && Settles(LedgerOf(start, run), node.ledger)
      && prevotes == StoreOf(run)
      && |run| == calls == |DiaryOf(start, run).taken|
      && AllMadeFor(run, format)
      && Matches(submissions, run)
    }

    /** Any account will do, whatever earlier processes left in flight. */
    constructor (node: Node, broadcaster: Broadcaster, validators: seq<string>, maxRetries: int,
                 hash: string -> string, format: real -> string)
      requires broadcaster.node == node && Sound(node.ledger)
      ensures Valid() && start == node.ledger && run == []
      ensures this.node == node && this.broadcaster == broadcaster && this.validators == validators
      ensures this.maxRetries == maxRetries
      ensures this.hash == hash && this.format == format
      ensures prevotes == map[] && lastVotePeriod == 0 && whitelist == [] && submissions == []
    {
      this.node := node;
      this.broadcaster := broadcaster;
      this.validators := validators;
      this.maxRetries := maxRetries;
      this.hash := hash;
      this.format := format;
      lastVotePeriod, prevotes, state, votePeriodBlocks, whitelist := 0, map[], Idle, 0, [];
      start, run := node.ledger, [];
      calls, submissions := 0, [];
      rounds, salts := [], [];
    }

    /** In every state between submissions the stored prevotes and the chain are consistent. */
    lemma ValidIsConsistent()
      requires Valid()
      ensures Consistent(node.ledger, prevotes, DiaryOf(start, run), hash)
    {
      RunIsConsistent(start, run, hash);
      SettlesKeepsConsistent(LedgerOf(start, run), node.ledger, prevotes, DiaryOf(start, run), hash);
    }

    /** One query; only code 0 is a success, and it means that exactly this transaction landed so. */
    method VerifyTxResult(tx: Tx) returns (r: Result<(), VoteError>)
      requires Sound(node.ledger)
      modifies node`ledger, node`fetches
      ensures Settles(old(node.ledger), node.ledger) && Sound(node.ledger)
      ensures old(node.fetches) <= node.fetches && |node.fetches| == |old(node.fetches)| + 1
      ensures node.fetches[|old(node.fetches)|].tx == tx
      ensures r.Ok? <==> node.fetches[|old(node.fetches)|].answer == Ok(0)
      ensures r.Err? ==>
                r.error == match node.fetches[|old(node.fetches)|].answer
                           case Err(text) => TxNotVerified(text)
                           case Ok(code) => TxFailed(code)
      ensures r.Ok? ==> node.ledger.Landed(tx, 0)
      ensures r.Err? && r.error.TxFailed? ==> node.ledger.Landed(tx, r.error.code)
    {
      var reply := node.GetTx(tx);
      match reply
      case Err(text) => r := Err(TxNotVerified(text));
      case Ok(code) => r := if code != 0 then Err(TxFailed(code)) else Ok(());
    }

    /** Broadcasts until one is accepted, or maxRetries have failed; success is an accepted broadcast, the last
        one signed, whose transaction was then found with code 0. */
    method BroadcastVoteTx(msgs: seq<Msg>, call: nat) returns (r: Result<(), VoteError>, ghost round: Round)
      requires broadcaster.node == node && Sound(node.ledger)
      modifies node, broadcaster, this`rounds
      ensures Evolves(old(node.ledger), node.ledger, msgs, call)
      ensures rounds == old(rounds) + [round]
      ensures broadcaster.broadcasts == old(broadcaster.broadcasts) + round.results
      ensures node.fetches == old(node.fetches) + round.fetches
      ensures forall i :: 0 <= i < |round.results| - 1 ==> round.results[i].Err?
      ensures |round.results| <= if maxRetries < 0 then 0 else maxRetries
      ensures var n := |round.results|;
              if n > 0 && round.results[n - 1].Ok? then
                && |round.fetches| == 1 && round.fetches[0].tx == round.results[n - 1].value
                && (r.Ok? <==> round.fetches[0].answer == Ok(0))
                && (r.Ok? ==> node.ledger.Landed(round.results[n - 1].value, 0))
                && round.results[n - 1].value.msgs == msgs && LastSentIs(node.ledger, round.results[n - 1].value)
              else
                round.fetches == [] && n >= maxRetries && r == Err(BroadcastFailed(maxRetries))
      ensures r.Err? ==> !r.error.PrevoteFailed?
    {
      ghost var c := node.ledger;
      ghost var results: seq<Result<Tx, string>> := [];
      SettlesEvolves(c, c, msgs, call);
      var attempt := 0;
      while attempt < maxRetries
        invariant 0 <= attempt && (attempt <= maxRetries || attempt == 0) && |results| == attempt
        invariant Evolves(c, node.ledger, msgs, call)
        invariant broadcaster.broadcasts == old(broadcaster.broadcasts) + results
        invariant node.fetches == old(node.fetches) && rounds == old(rounds)
        invariant forall i :: 0 <= i < |results| ==> results[i].Err?
      {
        ghost var before := node.ledger;
        var reply := broadcaster.BroadcastTx(msgs, call);
        results := results + [reply];
        ghost var sent := node.ledger;
        EvolvesTransitive(c, before, sent, msgs, call);
        if reply.Ok? {
          r := VerifyTxResult(reply.value);
          SettlesEvolves(sent, node.ledger, msgs, call);
          EvolvesTransitive(c, sent, node.ledger, msgs, call);
          round := Round(results, node.fetches[|old(node.fetches)|..]);
          rounds := rounds + [round];
          return;
        }
        attempt := attempt + 1;
      }
      r := Err(BroadcastFailed(maxRetries));
      round := Round(results, []);
      rounds := rounds + [round];
    }

    /** The random salt; None when the source of randomness fails. */
    method DrawSalt() returns (salt: Option<string>)
      modifies this`salts
      ensures salts == old(salts) + [salt]
    {
      salt := *;
      salts := salts + [salt];
    }

    /** A new commitment to these prices under the salt just drawn; it fails only without prices or salt. */
    method CreatePrevote(validator: string, prices: seq<Price>) returns (created: Result<Prevote, PrevoteError>)
      modifies this`salts
      ensures DrawnFor(if created.Ok? then Some(created.value) else None, old(salts), salts)
      ensures created.Err? <==> prices == [] || salts[|old(salts)|].None?
      ensures created.Err? ==> created.error == if prices == [] then NoPricesProvided else SaltUnavailable
      ensures created.Ok? ==> Opens(created.value, hash, validator) && Lists(created.value, prices, format)
    {
      var salt := DrawSalt();
      ghost var order;
      created, order := NewPrevote(prices, validator, salt, format, hash);
    }

    /** One round for `prevote`; `landed` is its transaction if it is confirmed. */
    method RunRound(validator: string, prevote: Prevote, msgs: seq<Msg>, call: nat)
      returns (r: Result<(), VoteError>, ghost landed: Option<Tx>)
      requires broadcaster.node == node && Sound(node.ledger) && Opens(prevote, hash, validator)
      modifies node, broadcaster, this`rounds
      ensures old(rounds) <= rounds && |rounds| == |old(rounds)| + 1
      ensures RoundEnded(r, landed, rounds[|old(rounds)|])
      ensures RoundRan(old(node.ledger), node.ledger, msgs, call, validator, hash, prevote, landed)
    {
      ghost var round;
      r, round := BroadcastVoteTx(msgs, call);
      landed := if r.Ok? then Some(round.results[|round.results| - 1].value) else None;
    }

    /** The stored prevote, if any, is revealed together with a new commitment. On success the new
        prevote is stored, on a failed transaction the stored one is dropped. */
    method FirstRound(validator: string, prices: seq<Price>, call: nat)
      returns (r: Result<(), VoteError>, ghost first: Option<Prevote>, ghost landed: Option<Tx>)
      requires broadcaster.node == node && Sound(node.ledger)
      modifies node, broadcaster, this`rounds, this`salts, this`prevotes
      ensures first.None? <==> r.Err? && r.error.PrevoteFailed?
      ensures DrawnFor(first, old(salts), salts)
      ensures first.None? ==> rounds == old(rounds) && (prices == [] || salts[|old(salts)|].None?)
                              && node.ledger == old(node.ledger) && prevotes == old(prevotes)
      ensures first.Some? ==>
                && old(rounds) <= rounds && |rounds| == |old(rounds)| + 1
                && RoundEnded(r, landed, rounds[|old(rounds)|])
                && Lists(first.value, prices, format)
                && RoundRan(old(node.ledger), node.ledger,
                            CombinedMessages(Stored(old(prevotes), validator), first.value, validator), call, validator,
                            hash, first.value, landed)
                && (forall k :: |old(node.ledger).sent| <= k < |node.ledger.sent| ==>
                      node.ledger.sent[k].tx.msgs
                      == (if validator in old(prevotes)
                          then [VoteMsg(old(prevotes)[validator].salt, old(prevotes)[validator].vote, validator)] else [])
                         + [first.value.msg])
                && prevotes == if r.Ok? then old(prevotes)[validator := first.value] else old(prevotes) - {validator}
    {
      first, landed := None, None;
      var created := CreatePrevote(validator, prices);
      if created.Err? {
        return Err(PrevoteFailed(created.error)), first, landed;
      }
      var prevote := created.value;
      first := Some(prevote);
      var msgs: seq<Msg> := [];
      if validator in prevotes {
        msgs := msgs + [NewVote(prevotes[validator], validator)];
      }
      msgs := msgs + [prevote.msg];
      r, landed := RunRound(validator, prevote, msgs, call);
      if r.Ok? {
        prevotes := prevotes[validator := prevote];
      } else if validator in prevotes {
        prevotes := prevotes - {validator};
      }
    }

    /** The recovery after a failed round: a fresh prevote on its own, with nothing revealed. */
    method Recover(validator: string, prices: seq<Price>, call: nat)
      returns (r: Result<(), VoteError>, ghost second: Option<Prevote>, ghost landed: Option<Tx>)
      requires broadcaster.node == node && Sound(node.ledger)
      modifies node, broadcaster, this`rounds, this`salts, this`prevotes
      ensures DrawnFor(second, old(salts), salts)
      ensures second.None? ==> rounds == old(rounds) && (prices == [] || salts[|old(salts)|].None?) && r.Err? && landed.None?
                               && node.ledger == old(node.ledger) && prevotes == old(prevotes)
      ensures second.Some? ==>
                && old(rounds) <= rounds && |rounds| == |old(rounds)| + 1
                && RoundEnded(r, landed, rounds[|old(rounds)|])
                && Lists(second.value, prices, format)
                && RoundRan(old(node.ledger), node.ledger, [second.value.msg], call, validator, hash, second.value, landed)
                && prevotes == if r.Ok? then old(prevotes)[validator := second.value] else old(prevotes)
    {
      second, landed := None, None;
      var created := CreatePrevote(validator, prices);
      if created.Err? {
        return Err(PrevoteFailed(created.error)), second, landed;
      }
      var freshPrevote := created.value;
      second := Some(freshPrevote);
      r, landed := RunRound(validator, freshPrevote, [freshPrevote.msg], call);
      if r.Ok? {
        prevotes := prevotes[validator := freshPrevote];
      }
    }

    /** Both rounds of one submission; `s` says how it went and `mid` is the ledger in between. */
    method SubmitRounds(validator: string, prices: seq<Price>, call: nat, ghost d: Diary)
      returns (r: Result<(), VoteError>, ghost s: Submission, ghost mid: Ledger)
      requires broadcaster.node == node && Sound(node.ledger) && call == |d.taken|
      modifies node, broadcaster, this`rounds, this`salts, this`prevotes
      ensures old(rounds) <= rounds && RoundsMatch(s, rounds[|old(rounds)|..])
      ensures s.NoPrevote? || s.RecoveryNotCreated? ==> prices == [] || (salts != [] && salts[|salts| - 1].None?)
      ensures MadeList(s, prices, format)
      ensures SaltedSince(s, old(salts), salts)
      ensures r.Ok? <==> s.Voted? || s.Recovered?
      ensures RoundsRan(StepOf(validator, prices, s, old(node.ledger), mid, node.ledger, old(prevotes), d), hash)
      ensures prevotes == PrevotesAfter(old(prevotes), validator, s)
    {
      ghost var first, landed, second;
      r, first, landed := FirstRound(validator, prices, call);
      mid := node.ledger;
      ghost var middle := salts;
      if r.Err? && !r.error.PrevoteFailed? {
        r, second, landed := Recover(validator, prices, call);
        if r.Ok? {
          StoredAnew(old(prevotes), validator, second.value);
        }
        s := RecoveryRan(validator, prices, old(node.ledger), mid, node.ledger, old(prevotes), d, hash, first.value, second,
                         landed);
        RecoveryMade(s, first.value, second, prices, format, old(salts), middle, salts);
      } else {
        s := if r.Ok? then Voted(first.value, landed.value) else NoPrevote;
        FirstMade(s, first, prices, format, old(salts), salts);
      }
    }

    /** One submission: a first round and, if its transaction fails, a recovery. It continues the run
        by a step `x`, which tells how it went. */
    method SubmitVoteForValidator(validator: string, prices: seq<Price>, period: nat)
      returns (r: Result<(), VoteError>, ghost x: Step)
      requires Valid()
      modifies node, broadcaster, this`rounds, this`salts, this`prevotes, this`calls, this`run,
               this`submissions
      ensures Valid() && run == old(run) + [x] && submissions == old(submissions) + [(period, validator)]
      ensures x.v == validator && x.prices == prices && MadeFor(x, format)
      ensures SaltedSince(x.s, old(salts), salts)
      ensures x.c == old(node.ledger) && x.c' == node.ledger
      ensures old(rounds) <= rounds && RoundsMatch(x.s, rounds[|old(rounds)|..])
      ensures x.s.NoPrevote? || x.s.RecoveryNotCreated? ==> prices == [] || (salts != [] && salts[|salts| - 1].None?)
      ensures r.Ok? <==> x.s.Voted? || x.s.Recovered?
    {
      ghost var s, mid;
      ghost var d := DiaryOf(start, run);
      r, s, mid := SubmitRounds(validator, prices, calls, d);
      x := StepOf(validator, prices, s, old(node.ledger), mid, node.ledger, old(prevotes), d);
      RunGoesOn(start, run, x, hash);
      AllMadeOneMore(run, x, format);
      calls, run := calls + 1, run + [x];
      submissions := submissions + [(period, validator)];
    }

    /** One submission for each validator in turn. */
    method SubmitForAll(period: nat, oraclePrices: seq<Price>)
      requires Valid()
      modifies node, broadcaster, this`rounds, this`salts, this`prevotes, this`calls, this`run,
               this`submissions
      ensures Valid() && old(run) <= run
      ensures submissions == old(submissions) + Pairs(period, validators)
      ensures MadeSince(run, |old(run)|, oraclePrices)
    {
      for i := 0 to |validators|
        invariant Valid() && old(run) <= run
        invariant MadeSince(run, |old(run)|, oraclePrices)
        invariant submissions == old(submissions) + Pairs(period, validators)[..i]
      {
        // An error is logged and the other validators are still served.
        var result, x := SubmitVoteForValidator(validators[i], oraclePrices, period);
        assert Pairs(period, validators)[..i + 1] == Pairs(period, validators)[..i] + [(period, validators[i])];
      }
    }

    /** The rates to vote; empty exactly when there are none. */
    method OraclePrices(prices: map<string, real>) returns (result: seq<Price>)
      ensures result != [] <==> HasRates(prices, whitelist)
      ensures result != [] ==> IsConversion(result, prices, whitelist)
    {
      ghost var order;
      result, order := ConvertToOraclePrices(prices, whitelist);
      if LuncUsd(prices).Some? {
        ConvertedNonEmpty(order, prices, whitelist, LuncUsd(prices).value);
      }
    }

    /** The end of a vote cycle that reaches submission. */
    method SubmitCycle(period: nat, oraclePrices: seq<Price>)
      requires Valid()
      modifies node, broadcaster, this`rounds, this`salts, this`prevotes, this`calls, this`run,
               this`submissions, this`state, this`lastVotePeriod
      ensures Valid() && old(run) <= run && lastVotePeriod == period
      ensures submissions == old(submissions) + Pairs(period, validators)
      ensures MadeSince(run, |old(run)|, oraclePrices)
    {
      state := SubmitVote;
      SubmitForAll(period, oraclePrices);
      lastVotePeriod := period;
      state := WaitPeriod;
    }

    /** One vote cycle. It reaches submission unless the period was voted already, the price query
        failed, no whitelist has arrived or nothing whitelisted has a rate; then nothing changes but
        the state label. */
    method PerformVoteCycle(period: nat, fetched: Result<map<string, real>, string>) returns (r: Result<(), VoteError>)
      requires Valid()
      modifies node, broadcaster, this
      ensures Valid() && old(run) <= run
      ensures whitelist == old(whitelist) && votePeriodBlocks == old(votePeriodBlocks)
      ensures period != old(lastVotePeriod) && fetched.Ok? && whitelist != [] && HasRates(fetched.value, whitelist) ==>
                && r.Ok? && lastVotePeriod == period
                && submissions == old(submissions) + Pairs(period, validators)
                && ServesFetched(run, |old(run)|, fetched.value, whitelist)
      ensures !(period != old(lastVotePeriod) && fetched.Ok? && whitelist != [] && HasRates(fetched.value, whitelist)) ==>
                && node.ledger == old(node.ledger) && prevotes == old(prevotes) && run == old(run)
                && lastVotePeriod == old(lastVotePeriod)
                && submissions == old(submissions)
                && (r.Ok? <==> period == old(lastVotePeriod))
                && (r.Err? ==> r.error == if fetched.Err? then FetchFailed(fetched.error)
                                          else if whitelist == [] then WhitelistNotLoaded else NoWhitelistedPrices)
    {
      if period == lastVotePeriod {
        return Ok(());
      }
      state := FetchPrices;
      if fetched.Err? {
        return Err(FetchFailed(fetched.error));
      }
      if |whitelist| == 0 {
        return Err(WhitelistNotLoaded);
      }
      var oraclePrices := OraclePrices(fetched.value);
      if |oraclePrices| == 0 {
        return Err(NoWhitelistedPrices);
      }
      SubmitCycle(period, oraclePrices);
      ServesConverted(run, |old(run)|, oraclePrices, fetched.value, whitelist);
      r := Ok(());
    }

    /** The voter is idle while the chain moves on. */
    method Wait()
      requires Valid()
      modifies node
      ensures Valid()
    {
      ghost var c := node.ledger;
      node.Elapse();
      SettlesTransitive(LedgerOf(start, run), c, node.ledger);
    }

    /** What the voting loop does on one event. */
    method HandleEvent(event: Event)
      requires Valid()
      modifies node, broadcaster, this
      ensures Valid() && old(run) <= run
      ensures whitelist == WhitelistAfter(old(whitelist), event)
      ensures event.ParamsUpdate? ==> whitelist == event.whitelist && votePeriodBlocks == event.votePeriod
      ensures event.PeriodStarted? ==> whitelist == old(whitelist) && votePeriodBlocks == old(votePeriodBlocks)
      ensures lastVotePeriod == LastAfter(old(lastVotePeriod), old(whitelist), event)
      ensures ServedEvent(old(run), run, old(lastVotePeriod), old(whitelist), event)
      ensures submissions
           == old(submissions)
              + (if Submits(old(lastVotePeriod), old(whitelist), event) then Pairs(event.period, validators) else [])
    {
      match event
      case PeriodStarted(period, fetched) =>
        var result := PerformVoteCycle(period, fetched);
        if result.Err? {
          state := Error;
        }
      case ParamsUpdate(votePeriod, denoms) =>
        votePeriodBlocks := votePeriod;
        whitelist := denoms;
    }

    /** The voting loop over any finite run of events, with the chain moving on between them. */
    method Start(events: seq<Event>)
      requires Valid()
      modifies node, broadcaster, this
      ensures Valid() && old(run) <= run
      ensures submissions == old(submissions) + Run(old(lastVotePeriod), old(whitelist), events, validators)
      ensures AllMadeBefore(run, |old(run)|, events, |events|, old(whitelist))
    {
      ghost var all := Run(lastVotePeriod, whitelist, events, validators);
      for i := 0 to |events|
        invariant Valid() && old(run) <= run
        invariant old(submissions) + all == submissions + Run(lastVotePeriod, whitelist, events[i..], validators)
        invariant whitelist == WhitelistAt(old(whitelist), events[..i])
        invariant AllMadeBefore(run, |old(run)|, events, i, old(whitelist))
      {
        Wait();
        assert events[i..] == [events[i]] + events[i + 1..];
        RunUnfolds(lastVotePeriod, whitelist, events[i], events[i + 1..], validators, submissions);
        WhitelistOneMore(old(whitelist), events, i);
        ghost var before, last := run, lastVotePeriod;
        HandleEvent(events[i]);
        OneEventMore(before, run, |old(run)|, events, i, old(whitelist), last);
      }
    }
  }
}
