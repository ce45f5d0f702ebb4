/** Which periods the voting loop submits: pkg/feeder/voter/voter.go, lines 138 to 263. */
module Schedule {
  import opened Wrappers
  import opened Sorting
  import opened Conversion

  /** What the voter hears: a voting period with the outcome of the price query, or new parameters. */
  datatype Event =
    | PeriodStarted(period: nat, fetched: Result<map<string, real>, string>)
    | ParamsUpdate(votePeriod: nat, whitelist: seq<string>)

  /** A vote cycle gets as far as submitting. */
  ghost predicate Reaches(last: nat, period: nat, fetched: Result<map<string, real>, string>, whitelist: seq<string>) {
    period != last && fetched.Ok? && whitelist != [] && HasRates(fetched.value, whitelist)
  }

  function Pairs(period: nat, validators: seq<string>): (r: seq<(nat, string)>)
    ensures |r| == |validators| && forall i :: 0 <= i < |r| ==> r[i] == (period, validators[i])
  {
    seq(|validators|, i requires 0 <= i < |validators| => (period, validators[i]))
  }

  /** The (period, validator) pairs that a run of events submits. */
  ghost function Run(last: nat, whitelist: seq<string>, events: seq<Event>, validators: seq<string>): seq<(nat, string)>
    decreases events
  {
    if events == [] then []
    else match events[0]
      case ParamsUpdate(_, denoms) => Run(last, denoms, events[1..], validators)
      case PeriodStarted(period, fetched) =>
        if Reaches(last, period, fetched, whitelist)
        then Pairs(period, validators) + Run(period, whitelist, events[1..], validators)
        else Run(last, whitelist, events[1..], validators)
  }

  /** The event is a period that is submitted. */
  ghost predicate Submits(last: nat, whitelist: seq<string>, event: Event) {
    event.PeriodStarted? && Reaches(last, event.period, event.fetched, whitelist)
  }

  /** The last voted period and the whitelist after one event. */
  ghost function LastAfter(last: nat, whitelist: seq<string>, event: Event): nat {
    if Submits(last, whitelist, event) then event.period else last
  }

  function WhitelistAfter(whitelist: seq<string>, event: Event): seq<string> {
    if event.ParamsUpdate? then event.whitelist else whitelist
  }

  /** The whitelist after some events. */
  function WhitelistAt(whitelist: seq<string>, events: seq<Event>): seq<string> {
    if events == [] then whitelist
    else WhitelistAfter(WhitelistAt(whitelist, events[..|events| - 1]), events[|events| - 1])
  }

  lemma WhitelistOneMore(whitelist: seq<string>, events: seq<Event>, n: nat)
    requires n < |events|
    ensures WhitelistAt(whitelist, events[..n + 1]) == WhitelistAfter(WhitelistAt(whitelist, events[..n]), events[n])
  {
    assert events[..n + 1][..n] == events[..n];
  }

  lemma RunUnfolds(last: nat, whitelist: seq<string>, event: Event, rest: seq<Event>, validators: seq<string>,
                   before: seq<(nat, string)>)
    ensures before + Run(last, whitelist, [event] + rest, validators)
         == before + (if Submits(last, whitelist, event) then Pairs(event.period, validators) else [])
            + Run(LastAfter(last, whitelist, event), WhitelistAfter(whitelist, event), rest, validators)
  {
    assert ([event] + rest)[1..] == rest;
  }

  function PeriodsOf(events: seq<Event>): seq<nat> {
    if events == [] then []
    else (if events[0].PeriodStarted? then [events[0].period] else []) + PeriodsOf(events[1..])
  }

  /** Once a run of periods has left a period it does not come back to it. */
  ghost predicate NoReturn(periods: seq<nat>) {
    forall i, j, k :: 0 <= i < j < k < |periods| && periods[i] == periods[k] ==> periods[i] == periods[j]
  }

  lemma {:induction false} RunStaysInPeriods(last: nat, whitelist: seq<string>, events: seq<Event>, validators: seq<string>)
    ensures forall s :: s in Run(last, whitelist, events, validators) ==> s.0 in PeriodsOf(events)
    decreases events
  {
    if events != [] {
      match events[0]
      case ParamsUpdate(_, denoms) => RunStaysInPeriods(last, denoms, events[1..], validators);
      case PeriodStarted(period, fetched) =>
        RunStaysInPeriods(period, whitelist, events[1..], validators);
        RunStaysInPeriods(last, whitelist, events[1..], validators);
    }
  }

  /** After period `last` was voted, a run that starts in `last` and does not return to it never submits it. */
  lemma {:induction false} NotAgain(last: nat, whitelist: seq<string>, events: seq<Event>, validators: seq<string>)
    requires NoReturn([last] + PeriodsOf(events))
    ensures forall s :: s in Run(last, whitelist, events, validators) ==> s.0 != last
    decreases events
  {
    if events != [] {
      var rest := PeriodsOf(events[1..]);
      match events[0]
      case ParamsUpdate(_, denoms) =>
        assert PeriodsOf(events) == rest;
        NotAgain(last, denoms, events[1..], validators);
      case PeriodStarted(period, fetched) =>
        assert PeriodsOf(events) == [period] + rest;
        var s := [last] + PeriodsOf(events);
        if period == last {
          assert [last] + rest == s[1..];
          NotAgain(last, whitelist, events[1..], validators);
        } else {
          forall k | 0 <= k < |rest| ensures rest[k] != last {
            assert s[0] == last && s[1] == period && s[k + 2] == rest[k];
          }
          RunStaysInPeriods(period, whitelist, events[1..], validators);
          RunStaysInPeriods(last, whitelist, events[1..], validators);
        }
    }
  }

  /** Each validator's vote for a period reaches submission at most once in a run whose periods do
      not return, although a cycle that fails earlier is tried again when the period is repeated. */
  lemma {:induction false} SubmittedAtMostOnce(last: nat, whitelist: seq<string>, events: seq<Event>, validators: seq<string>)
    requires NoReturn(PeriodsOf(events)) && NoDuplicates(validators)
    ensures NoDuplicates(Run(last, whitelist, events, validators))
    decreases events
  {
    if events != [] {
      match events[0]
      case ParamsUpdate(_, denoms) =>
        assert PeriodsOf(events) == PeriodsOf(events[1..]);
        SubmittedAtMostOnce(last, denoms, events[1..], validators);
      case PeriodStarted(period, fetched) =>
        assert PeriodsOf(events) == [period] + PeriodsOf(events[1..]);
        assert PeriodsOf(events[1..]) == PeriodsOf(events)[1..];
        SubmittedAtMostOnce(period, whitelist, events[1..], validators);
        SubmittedAtMostOnce(last, whitelist, events[1..], validators);
        NotAgain(period, whitelist, events[1..], validators);
    }
  }

  // ---------- when a period is submitted ----------

  /** The whitelist in force after the events: the one of the last parameter update, or `initial` without any. */
  ghost predicate InForce(initial: seq<string>, events: seq<Event>, whitelist: seq<string>) {
    || (whitelist == initial && forall i :: 0 <= i < |events| ==> !events[i].ParamsUpdate?)
    || exists i: nat :: LastUpdate(events, i) && events[i].whitelist == whitelist
  }

  ghost predicate LastUpdate(events: seq<Event>, i: nat) {
    i < |events| && events[i].ParamsUpdate? && forall j :: i < j < |events| ==> !events[j].ParamsUpdate?
  }

  lemma {:induction false} WhitelistInForce(initial: seq<string>, events: seq<Event>, whitelist: seq<string>)
    ensures InForce(initial, events, whitelist) <==> whitelist == WhitelistAt(initial, events)
  {
    if events != [] {
      var n := |events| - 1;
      WhitelistInForce(initial, events[..n], whitelist);
      if events[n].ParamsUpdate? {
        assert LastUpdate(events, n);
        forall i: nat | LastUpdate(events, i) ensures i == n {
        }
      } else {
        assert forall i :: 0 <= i < n ==> events[..n][i] == events[i];
        forall i: nat ensures LastUpdate(events, i) <==> LastUpdate(events[..n], i) {
          assert forall j :: i < j < |events| && j != n ==> events[j] == events[..n][j];
        }
      }
    }
  }

  /** The period of the last submission, or `initial` without any. */
  function LastSubmitted(initial: nat, submitted: seq<(nat, string)>): nat {
    if submitted == [] then initial else submitted[|submitted| - 1].0
  }

  /** What one more event adds to a run: a period is submitted, for each validator in turn, exactly if it
      is not the period submitted last, its prices were fetched, and the whitelist of the last parameter
      update is not empty and has a rate. */
  lemma RunExactly(last: nat, initial: seq<string>, events: seq<Event>, event: Event, validators: seq<string>,
                   whitelist: seq<string>)
    requires validators != [] && InForce(initial, events, whitelist)
    ensures var before := Run(last, initial, events, validators);
            Run(last, initial, events + [event], validators)
            == before
               + (if event.PeriodStarted? && event.period != LastSubmitted(last, before) && event.fetched.Ok?
                     && whitelist != [] && HasRates(event.fetched.value, whitelist)
                  then seq(|validators|, i requires 0 <= i < |validators| => (event.period, validators[i])) else [])
  {
    WhitelistInForce(initial, events, whitelist);
    RunOneMore(last, initial, events, event, validators);
    LastOfRun(last, initial, events, validators);
  }

  /** The period voted last after the events. */
  ghost function LastAt(last: nat, whitelist: seq<string>, events: seq<Event>): nat {
    if events == [] then last
    else
      var n := |events| - 1;
      LastAfter(LastAt(last, whitelist, events[..n]), WhitelistAt(whitelist, events[..n]), events[n])
  }

  lemma {:induction false} RunOneMore(last: nat, whitelist: seq<string>, events: seq<Event>, event: Event,
                                      validators: seq<string>)
    ensures var w := WhitelistAt(whitelist, events);
            Run(last, whitelist, events + [event], validators)
            == Run(last, whitelist, events, validators)
               + (if Submits(LastAt(last, whitelist, events), w, event) then Pairs(event.period, validators) else [])
    decreases events
  {
    if events == [] {
      assert [event][1..] == [];
    } else {
      var head, rest := events[0], events[1..];
      assert events == [head] + rest && events + [event] == [head] + (rest + [event]);
      RunUnfolds(last, whitelist, head, rest, validators, []);
      RunUnfolds(last, whitelist, head, rest + [event], validators, []);
      RunOneMore(LastAfter(last, whitelist, head), WhitelistAfter(whitelist, head), rest, event, validators);
      FromTheFront(last, whitelist, head, rest);
    }
  }

  lemma {:induction false} FromTheFront(last: nat, whitelist: seq<string>, head: Event, rest: seq<Event>)
    ensures WhitelistAt(whitelist, [head] + rest) == WhitelistAt(WhitelistAfter(whitelist, head), rest)
    ensures LastAt(last, whitelist, [head] + rest)
         == LastAt(LastAfter(last, whitelist, head), WhitelistAfter(whitelist, head), rest)
    decreases rest
  {
    var all := [head] + rest;
    if rest == [] {
      assert all[..0] == [];
    } else {
      assert all[..|all| - 1] == [head] + rest[..|rest| - 1];
      FromTheFront(last, whitelist, head, rest[..|rest| - 1]);
    }
  }

  lemma {:induction false} LastOfRun(last: nat, whitelist: seq<string>, events: seq<Event>, validators: seq<string>)
    requires validators != []
    ensures LastSubmitted(last, Run(last, whitelist, events, validators)) == LastAt(last, whitelist, events)
  {
    if events != [] {
      var n := |events| - 1;
      assert events == events[..n] + [events[n]];
      RunOneMore(last, whitelist, events[..n], events[n], validators);
      LastOfRun(last, whitelist, events[..n], validators);
    }
  }
}
