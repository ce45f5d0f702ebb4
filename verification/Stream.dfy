/** Voting periods from block events, with RPC failover: pkg/feeder/eventstream/stream.go. */
module Stream {
  import opened Wrappers
  import opened Sorting
  import opened Schedule
  import opened Modular

  const MAX_CONSECUTIVE_FAILURES: nat := 3
  const TWO64: nat := 0x1_0000_0000_0000_0000

  /** Go's uint64. */
  type U64 = x: nat | x < TWO64

  datatype VotingPeriod = VotingPeriod(height: U64, period: nat)

  /** What the loop sees: a watchdog tick, stale or not, a message with or without a readable
      height, or new parameters from the polling loop. */
  datatype Input =
    | Tick(stale: bool)
    | Block(height: U64)
    | Unreadable
    | NewVotePeriod(votePeriod: U64)

  function PeriodNumber(v: VotingPeriod): nat { v.period }

  /** `height + 1` in uint64 arithmetic. */
  function Next(height: U64): U64 { (height + 1) % TWO64 }

  /** A block announces a voting period when the next height is a multiple of the vote period. */
  function Announced(height: U64, votePeriod: U64): (r: seq<VotingPeriod>)
    requires votePeriod > 0
  {
    if Next(height) % votePeriod == 0 then [VotingPeriod(Next(height), Next(height) / votePeriod)] else []
  }

  // ---------- failover ----------

  /** The failure counter, and how many times the endpoint was switched. */
  datatype Failover = Failover(failures: nat, switches: nat)

  /** One input, with `n` endpoints: a stale tick counts and the third in a row switches, an
      unreadable message switches at once, a good block resets; a single endpoint never switches. */
  function FailoverStep(f: Failover, i: Input, n: nat): Failover {
    match i
    case Tick(stale) =>
      if !stale then f
      else if f.failures + 1 >= MAX_CONSECUTIVE_FAILURES && n > 1 then Failover(0, f.switches + 1)
      else Failover(f.failures + 1, f.switches)
    case Unreadable => if n > 1 then Failover(0, f.switches + 1) else f
    case Block(_) => Failover(0, f.switches)
    case NewVotePeriod(_) => f
  }

  function FailoverRun(f: Failover, inputs: seq<Input>, n: nat): Failover {
    if inputs == [] then f
    else FailoverStep(FailoverRun(f, inputs[..|inputs| - 1], n), inputs[|inputs| - 1], n)
  }

  /** The number of stale ticks since the last message that was a block or unreadable. */
  function StaleTicks(inputs: seq<Input>): nat {
    if inputs == [] then 0
    else
      var count := StaleTicks(inputs[..|inputs| - 1]);
      match inputs[|inputs| - 1]
      case Tick(stale) => if stale then count + 1 else count
      case Block(_) => 0
      case Unreadable => 0
      case NewVotePeriod(_) => count
  }

  /** With several endpoints the counter is the number of stale ticks since the last message modulo
      three, so it stays below three between inputs. */
  lemma {:induction false} CounterMeaning(inputs: seq<Input>, n: nat)
    requires n > 1
    ensures FailoverRun(Failover(0, 0), inputs, n).failures == StaleTicks(inputs) % MAX_CONSECUTIVE_FAILURES
  {
    if inputs != [] {
      CounterMeaning(inputs[..|inputs| - 1], n);
    }
  }

  /** A switch follows exactly an unreadable message, or a stale tick that makes the number of stale
      ticks since the last message a multiple of three. */
  lemma SwitchExactly(inputs: seq<Input>, i: Input, n: nat)
    requires n > 1
    ensures FailoverRun(Failover(0, 0), inputs + [i], n).switches
         == FailoverRun(Failover(0, 0), inputs, n).switches
            + (if i == Unreadable || (i == Tick(true) && StaleTicks(inputs + [i]) % MAX_CONSECUTIVE_FAILURES == 0)
               then 1 else 0)
  {
    CounterMeaning(inputs, n);
    assert (inputs + [i])[..|inputs|] == inputs;
  }

  /** A single endpoint is never left; the counter counts the stale ticks since the last good block. */
  lemma {:induction false} SingleEndpoint(inputs: seq<Input>)
    ensures FailoverRun(Failover(0, 0), inputs, 1) == Failover(StaleTicksSinceBlock(inputs), 0)
  {
    if inputs != [] {
      SingleEndpoint(inputs[..|inputs| - 1]);
    }
  }

  function StaleTicksSinceBlock(inputs: seq<Input>): nat {
    if inputs == [] || inputs[|inputs| - 1].Block? then 0
    else StaleTicksSinceBlock(inputs[..|inputs| - 1]) + (if inputs[|inputs| - 1] == Tick(true) then 1 else 0)
  }

  // ---------- periods ----------

  /** What a run of inputs announces, starting from the given vote period (None before the first parameters). */
  function Announcements(votePeriod: Option<U64>, inputs: seq<Input>): seq<VotingPeriod>
    requires votePeriod.Some? ==> votePeriod.value > 0
    decreases inputs
  {
    if inputs == [] then []
    else match inputs[0]
      case NewVotePeriod(p) => Announcements(if p == 0 then votePeriod else Some(p), inputs[1..])
      case Block(h) =>
        (if votePeriod.Some? then Announced(h, votePeriod.value) else []) + Announcements(votePeriod, inputs[1..])
      case _ => Announcements(votePeriod, inputs[1..])
  }

  /** The vote period in force after the inputs: the last one announced that is not 0, else `initial`. */
  ghost predicate PeriodInForce(initial: Option<U64>, inputs: seq<Input>, p: Option<U64>) {
    || (p == initial && forall i :: 0 <= i < |inputs| ==> !SetsPeriod(inputs[i]))
    || exists i: nat :: LastSetting(inputs, i) && p == Some(inputs[i].votePeriod)
  }

  predicate SetsPeriod(i: Input) { i.NewVotePeriod? && i.votePeriod != 0 }

  ghost predicate LastSetting(inputs: seq<Input>, i: nat) {
    i < |inputs| && SetsPeriod(inputs[i]) && forall j :: i < j < |inputs| ==> !SetsPeriod(inputs[j])
  }

  /** What one more input announces: a block announces the next height exactly if the vote period in force
      divides it, and nothing else announces anything. */
  lemma {:induction false} AnnouncementsExactly(initial: Option<U64>, inputs: seq<Input>, input: Input, p: Option<U64>)
    requires (initial.Some? ==> initial.value > 0) && PeriodInForce(initial, inputs, p)
    ensures p.Some? ==> p.value > 0
    ensures Announcements(initial, inputs + [input])
         == Announcements(initial, inputs)
            + (if input.Block? && p.Some? && (input.height + 1) % TWO64 % p.value == 0
               then [VotingPeriod((input.height + 1) % TWO64, (input.height + 1) % TWO64 / p.value)] else [])
    decreases inputs
  {
    if inputs == [] {
      assert [input][1..] == [];
    } else {
      var head, rest := inputs[0], inputs[1..];
      var next := if SetsPeriod(head) then Some(head.votePeriod) else initial;
      InForceFromTheFront(initial, inputs, p);
      AnnouncementsExactly(next, rest, input, p);
      assert (inputs + [input])[1..] == rest + [input];
    }
  }

  lemma InForceFromTheFront(initial: Option<U64>, inputs: seq<Input>, p: Option<U64>)
    requires inputs != [] && PeriodInForce(initial, inputs, p)
    ensures PeriodInForce(if SetsPeriod(inputs[0]) then Some(inputs[0].votePeriod) else initial, inputs[1..], p)
  {
    var rest := inputs[1..];
    assert forall i :: 0 <= i < |rest| ==> rest[i] == inputs[i + 1];
    if i: nat :| LastSetting(inputs, i) && p == Some(inputs[i].votePeriod) {
      if i > 0 {
        assert LastSetting(rest, i - 1);
      }
    }
  }

  class Stream {
    const rpcEndpoints: seq<string>
    var currentRPC: nat
    var url: string
    var consecutiveFailures: nat
    var votePeriod: Option<U64>
    ghost var switches: nat

    /** The websocket connects to the endpoint at the current index, and the index counts the switches. */
    ghost predicate Valid()
      reads this
    {
      && rpcEndpoints != []
      && currentRPC < |rpcEndpoints| && url == rpcEndpoints[currentRPC]
      && currentRPC == switches % |rpcEndpoints|
      && (|rpcEndpoints| > 1 ==> consecutiveFailures < MAX_CONSECUTIVE_FAILURES)
      && (votePeriod.Some? ==> votePeriod.value > 0)
    }

    ghost function State(): Failover
      reads this
    {
      Failover(consecutiveFailures, switches)
    }

    constructor (rpcEndpoints: seq<string>)
      requires rpcEndpoints != []
      ensures Valid() && this.rpcEndpoints == rpcEndpoints
      ensures State() == Failover(0, 0) && votePeriod == None
    {
      this.rpcEndpoints := rpcEndpoints;
      currentRPC, url, consecutiveFailures := 0, rpcEndpoints[0], 0;
      votePeriod, switches := None, 0;
    }

    method SwitchToNextEndpoint()
      requires rpcEndpoints != [] && currentRPC == switches % |rpcEndpoints|
      requires votePeriod.Some? ==> votePeriod.value > 0
      modifies this`currentRPC, this`url, this`consecutiveFailures, this`switches
      ensures Valid() && State() == Failover(0, old(switches) + 1)
    {
      NextIndex(switches, |rpcEndpoints|);
      currentRPC := (currentRPC + 1) % |rpcEndpoints|;
      url := rpcEndpoints[currentRPC];
      consecutiveFailures := 0;
      switches := switches + 1;
    }

    method HandleConnectionFailure()
      requires Valid()
      modifies this`currentRPC, this`url, this`consecutiveFailures, this`switches
      ensures Valid() && State() == FailoverStep(old(State()), Tick(true), |rpcEndpoints|)
    {
      consecutiveFailures := consecutiveFailures + 1;
      if consecutiveFailures >= MAX_CONSECUTIVE_FAILURES && |rpcEndpoints| > 1 {
        SwitchToNextEndpoint();
      }
    }

    method HandleParseFailure()
      requires Valid()
      modifies this`currentRPC, this`url, this`consecutiveFailures, this`switches
      ensures Valid() && State() == FailoverStep(old(State()), Unreadable, |rpcEndpoints|)
    {
      if |rpcEndpoints| <= 1 {
        return;
      }
      SwitchToNextEndpoint();
    }

    /** A readable block resets the counter and may start a voting period. */
    method HandleBlock(height: U64) returns (announced: seq<VotingPeriod>)
      requires Valid()
      modifies this`consecutiveFailures
      ensures Valid() && State() == FailoverStep(old(State()), Block(height), |rpcEndpoints|)
      ensures announced == if votePeriod.Some? then Announced(height, votePeriod.value) else []
    {
      consecutiveFailures := 0;
      if votePeriod.None? {
        return [];
      }
      var next := Next(height);
      if next % votePeriod.value != 0 {
        return [];
      }
      var period := next / votePeriod.value;
      return [VotingPeriod(next, period)];
    }

    /** The event loop over any finite run of inputs. */
    method VotingPeriodLoop(inputs: seq<Input>) returns (emitted: seq<VotingPeriod>)
      requires Valid()
      modifies this
      ensures Valid()
      ensures State() == FailoverRun(old(State()), inputs, |rpcEndpoints|)
      ensures emitted == Announcements(old(votePeriod), inputs)
    {
      emitted := [];
      ghost var all := Announcements(votePeriod, inputs);
      for i := 0 to |inputs|
        invariant Valid()
        invariant State() == FailoverRun(old(State()), inputs[..i], |rpcEndpoints|)
        invariant all == emitted + Announcements(votePeriod, inputs[i..])
      {
        assert inputs[..i + 1][..i] == inputs[..i];
        assert inputs[i..][0] == inputs[i] && inputs[i..][1..] == inputs[i + 1..];
        match inputs[i]
        case Tick(stale) =>
          if stale {
            HandleConnectionFailure();
          }
        case Unreadable =>
          HandleParseFailure();
        case NewVotePeriod(p) =>
          if p != 0 {
            votePeriod := Some(p);
          }
        case Block(height) =>
          var announced := HandleBlock(height);
          emitted := emitted + announced;
      }
      assert inputs[..|inputs|] == inputs;
    }
  }

  // ---------- exactly once ----------

  /** Every announced period times the vote period is the announced height. */
  lemma AnnouncedExact(height: U64, votePeriod: U64)
    requires votePeriod > 0
    ensures forall a :: a in Announced(height, votePeriod) ==>
              a.height == Next(height) && a.period * votePeriod == a.height
  {
  }

  /** The vote period stays `votePeriod` throughout. */
  ghost predicate FixedPeriod(inputs: seq<Input>, votePeriod: U64) {
    forall i :: 0 <= i < |inputs| && inputs[i].NewVotePeriod? ==> inputs[i].votePeriod in {0, votePeriod}
  }

  /** Block heights do not decrease; they may repeat. */
  ghost predicate NonDecreasing(inputs: seq<Input>) {
    forall i, j :: 0 <= i < j < |inputs| && inputs[i].Block? && inputs[j].Block? ==> inputs[i].height <= inputs[j].height
  }

  /** The number that follows the block's height, undoing the wrap-around to 0. */
  function Unwrapped(height: nat): nat {
    if height == 0 then TWO64 else height
  }

  /** Announcements in the order of the blocks, all after height `low`, each period at its height. */
  ghost predicate Ascending(e: seq<VotingPeriod>, low: nat, votePeriod: nat) {
    && (forall i :: 0 <= i < |e| ==> low < Unwrapped(e[i].height) && e[i].height == e[i].period * votePeriod)
    && (forall i, j :: 0 <= i < j < |e| ==> Unwrapped(e[i].height) <= Unwrapped(e[j].height))
  }

  /** No parameters yet, or those with the fixed vote period. */
  ghost predicate Known(current: Option<U64>, votePeriod: U64) {
    current.None? || current == Some(votePeriod)
  }

  lemma {:induction false} AnnouncementsAscend(current: Option<U64>, votePeriod: U64, inputs: seq<Input>, low: nat)
    requires votePeriod > 0 && Known(current, votePeriod) && FixedPeriod(inputs, votePeriod) && NonDecreasing(inputs)
    requires forall i :: 0 <= i < |inputs| && inputs[i].Block? ==> low <= inputs[i].height
    ensures Ascending(Announcements(current, inputs), low, votePeriod)
    decreases inputs
  {
    if inputs != [] {
      assert forall i :: 0 <= i < |inputs| - 1 ==> inputs[1..][i] == inputs[i + 1];
      match inputs[0]
      case Block(h) =>
        AnnouncementsAscend(current, votePeriod, inputs[1..], h);
        AnnouncedExact(h, votePeriod);
        assert Unwrapped(Next(h)) == h + 1;
        assert Ascending(Announced(h, votePeriod), low, votePeriod);
      case NewVotePeriod(p) =>
        assert inputs[0].votePeriod in {0, votePeriod};
        AnnouncementsAscend(if p == 0 then current else Some(p), votePeriod, inputs[1..], low);
      case _ =>
        AnnouncementsAscend(current, votePeriod, inputs[1..], low);
    }
  }

  /** Announced periods never return to a period they have left. */
  lemma AnnouncedPeriodsNoReturn(current: Option<U64>, votePeriod: U64, inputs: seq<Input>)
    requires votePeriod > 0 && Known(current, votePeriod) && FixedPeriod(inputs, votePeriod) && NonDecreasing(inputs)
    ensures NoReturn(Map(Announcements(current, inputs), PeriodNumber))
    ensures forall a :: a in Announcements(current, inputs) ==> a.period * votePeriod == a.height
  {
    AnnouncementsAscend(current, votePeriod, inputs, 0);
    var e := Announcements(current, inputs);
    forall i, j, k | 0 <= i < j < k < |e| && e[i].period == e[k].period
      ensures e[i].period == e[j].period
    {
      assert Unwrapped(e[i].height) == Unwrapped(e[j].height);
      SameMultiple(e[i].period, e[j].period, votePeriod);
    }
  }

  /** From the block heights to the submissions: with a fixed vote period and heights that never
      decrease, no validator's vote for a period is submitted twice. The voter has received the first
      of the announced periods, in order. */
  lemma SubmittedOncePerPeriod(current: Option<U64>, votePeriod: U64, inputs: seq<Input>, last: nat, whitelist: seq<string>,
                               events: seq<Event>, validators: seq<string>)
    requires votePeriod > 0 && Known(current, votePeriod) && FixedPeriod(inputs, votePeriod) && NonDecreasing(inputs)
    requires PeriodsOf(events) <= Map(Announcements(current, inputs), PeriodNumber)
    requires NoDuplicates(validators)
    ensures NoDuplicates(Run(last, whitelist, events, validators))
  {
    AnnouncedPeriodsNoReturn(current, votePeriod, inputs);
    SubmittedAtMostOnce(last, whitelist, events, validators);
  }

  /** `n` blocks in a row, starting at height `h`. */
  function Blocks(h: nat, n: nat): seq<Input>
    requires h + n < TWO64
    decreases n
  {
    if n == 0 then [] else [Block(h)] + Blocks(h + 1, n - 1)
  }

  /** The numbers after `low` up to `high`. */
  function After(low: nat, high: nat): seq<nat>
    decreases high - low
  {
    if low >= high then [] else [low + 1] + After(low + 1, high)
  }

  /** The period that a height belongs to. */
  function PeriodAt(height: nat, votePeriod: nat): nat
    requires votePeriod > 0
  {
    height / votePeriod
  }

  lemma NextPeriodAt(h: nat, top: nat, votePeriod: nat)
    requires votePeriod > 0 && h < top
    ensures PeriodAt(h + 1, votePeriod) == PeriodAt(h, votePeriod) + (if (h + 1) % votePeriod == 0 then 1 else 0)
    ensures PeriodAt(h + 1, votePeriod) <= PeriodAt(top, votePeriod)
  {
    NextQuotient(h, votePeriod);
    QuotientMonotone(h + 1, top, votePeriod);
  }

  /** Consecutive blocks announce exactly the periods whose first height they reach, in order and without gaps. */
  lemma {:induction false} ConsecutiveBlocksAnnounceAll(h: nat, n: nat, votePeriod: U64)
    requires votePeriod > 0 && h + n < TWO64
    ensures Map(Announcements(Some(votePeriod), Blocks(h, n)), PeriodNumber)
         == After(PeriodAt(h, votePeriod), PeriodAt(h + n, votePeriod))
    decreases n
  {
    if n > 0 {
      ConsecutiveBlocksAnnounceAll(h + 1, n - 1, votePeriod);
      OneBlockMore(h, n, votePeriod);
      NextPeriodAt(h, h + n, votePeriod);
      assert h + 1 + (n - 1) == h + n;
      UnfoldAfter(PeriodAt(h, votePeriod), PeriodAt(h + 1, votePeriod), PeriodAt(h + n, votePeriod));
    }
  }

  lemma UnfoldAfter(low: nat, next: nat, high: nat)
    requires low <= next <= low + 1 && next <= high
    ensures After(low, high) == (if next == low then [] else [next]) + After(next, high)
  {
  }

  lemma OneBlockMore(h: nat, n: nat, votePeriod: U64)
    requires votePeriod > 0 && 0 < n && h + n < TWO64
    ensures Map(Announcements(Some(votePeriod), Blocks(h, n)), PeriodNumber)
         == (if (h + 1) % votePeriod == 0 then [PeriodAt(h + 1, votePeriod)] else [])
            + Map(Announcements(Some(votePeriod), Blocks(h + 1, n - 1)), PeriodNumber)
  {
    assert Blocks(h, n)[1..] == Blocks(h + 1, n - 1);
    assert Next(h) == h + 1;
  }
}
