/** The block stream and the voter together, from their start: cmd/oracle-go/main.go, lines 415 to 451. */
module Feeder {
  import opened Wrappers
  import opened Sorting
  import opened Ledger
  import opened Node
  import opened Broadcaster
  import opened Schedule
  import opened Stream
  import opened Voter

  /** The stream sees `inputs`; the voter receives `events`, in which the periods are the first ones that
      the stream announces, in order, with parameter updates anywhere in between. */
  method RunFeeder(rpcEndpoints: seq<string>, inputs: seq<Input>, votePeriod: U64, node: Node, validators: seq<string>,
                   maxRetries: int, hash: string -> string, format: real -> string, events: seq<Event>)
    returns (stream: Stream, voter: Voter, emitted: seq<VotingPeriod>)
    requires rpcEndpoints != [] && Sound(node.ledger) && NoDuplicates(validators)
    requires votePeriod > 0 && FixedPeriod(inputs, votePeriod) && NonDecreasing(inputs)
    requires PeriodsOf(events) <= Map(Announcements(None, inputs), PeriodNumber)
    modifies node
    ensures stream.Valid() && voter.Valid() && voter.validators == validators
    ensures PeriodsOf(events) <= Map(emitted, PeriodNumber)
    ensures forall a :: a in emitted ==> a.period * votePeriod == a.height
    ensures voter.submissions == Run(0, [], events, validators) && NoDuplicates(voter.submissions)
  {
    stream := new Stream(rpcEndpoints);
    emitted := stream.VotingPeriodLoop(inputs);
    AnnouncedPeriodsNoReturn(None, votePeriod, inputs);
    var broadcaster := new Broadcaster(node);
    voter := new Voter(node, broadcaster, validators, maxRetries, hash, format);
    voter.Start(events);
    SubmittedOncePerPeriod(None, votePeriod, inputs, 0, [], events, validators);
  }
}
