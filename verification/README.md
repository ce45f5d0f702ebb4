# oracle-go: a verified model

oracle-go feeds prices to the Terra Classic oracle. A price server aggregates quotes from many
sources; a feeder turns the prices into a vote string, commits to its hash in a prevote, and reveals
it one voting period later, while committing to the next one. This project models the parts where
something subtle has to hold and proves it with Dafny 4.11:

`dafny verify dfyconfig.toml` checks everything.

| files | subject |
|---|---|
| `Ledger`, `Node`, `Broadcaster`, `Agreement`, `Submissions`, `Voter` | the commit-reveal voter against an adversarial chain |
| `Schedule`, `Stream`, `Feeder`, `Modular` | voting periods from block events, exactly-once voting, RPC failover |
| `Text`, `Numerals`, `Tuples`, `Oracle`, `Conversion`, `Messages` | prices to vote string to commitment, and back |
| `Sorting`, `Quotes`, `Medians`, `MedianAggregator`, `Averages`, `AdaptiveAggregator`, `Aggregators`, `Reals` | the three price aggregators |
| `Symbols` | symbol normalisation and aliases |
| `GrpcClient` | the retry and rotation loop |

Code that changes state is modelled by classes, arrays and loops with the source's control flow; each
is proved against functions on values, and the theorems are lemmas about those functions.

## The chain as an adversary

The chain is an account sequence, everything ever signed, and the landings so far. A signed
transaction may land at any later time, inside any call, with any result code, but only while its
sequence equals the account's, and landing consumes the sequence. Queries and broadcasts may fail
although they took effect, and an account query may return a sequence that has passed. The account may
have any history; earlier processes may have left transactions in flight. `Submissions` describes each
submission call as a step from one ledger and store to the next, and every state of the `Voter` class
lies at the end of a run of such steps. For every finite run:

- the prevote that a validator's last turn confirmed is stored, it is the last one landed for the
  validator, and nothing in flight can change it (`Submissions.LastTurnAgrees`), if its confirmation was
  *assured*;
- no transaction reveals a prevote that had not landed with code 0 when the transaction was sent
  (`Submissions.EveryRevealIsCommitted`);
- each prevote that was made is revealed by one submission call at most
  (`Submissions.EachDrawRevealedOnce`), and a recovery transaction reveals nothing;
- after a recovery the next submission reveals what the recovery confirmed, so only one period is missed
  (`Submissions.NextTurnReveals`).

Agreement does not hold without a condition. Salts have at most four digits, so a new prevote may equal an
earlier one; if the account query is stale as well, an old transaction is signed a second time and its old
landing is taken for a new one. `Ledger.AgreementExactly` gives the exact condition, for one accepted
transaction and its validator: either it had not landed yet when its round began, or the chain still held
its prevote. Either an account query that is not stale or a commitment that no transaction carried before is
enough for it (`Submissions.FreshTurnAgrees`). `Submissions.StaleSequenceBreaksAgreement` is a run of three
submissions that violates it: one prevote is stored, the chain holds another, and the stored one is revealed
a second time. By its text a vote is revealed once exactly if no two revealed prevotes coincide
(`Agreement.RevealedOnceExactly`).

What is committed to follows from the prices fetched: the vote string of every prevote of a run splits into
exactly the converted rates of one event's prices, one for each denom whitelisted at that time
(`Voter.CommittedRatesAreFetched`).

Assumptions: dry run is off; no other process signs for the feeder account during the run; `GetAccount`
never returns more than the account's sequence; equal transaction hashes mean equal transactions;
validator addresses are distinct where exactly-once voting is concerned.

## Where code and comments differ

- The comment on `WithFailover` (pkg/feeder/client/client.go, lines 211 to 225) speaks of all endpoints. The
  code stays at an endpoint while failures pass for transient, and leaves it after two attempts at the
  earliest. Some run of m failures reaches all n endpoints exactly if m is at least 2n - 1, and every run of
  m failures does exactly if n is 1 (`GrpcClient.SomeRunReachesAllExactly`, `EveryRunReachesAllExactly`); the
  default of n attempts reaches at most half of several endpoints, rounded up.
- The last branch of `ValidateExchangeRates` (a missing denom) and the statement after the retry loop of
  `BroadcastTx` cannot be reached.
- The fallback that keeps all quotes when every one was rejected is reachable: in the median aggregator
  exactly if the upper median exceeds the lower by more than the factor 11/9
  (`MedianAggregator.MedianFallbackExactly`), in the adaptive one exactly for sensitivities below 1 and an even
  number of quotes (`AdaptiveAggregator.AdaptiveFallbackExactly`).

## Model

| member | source | states |
|---|---|---|
| Ledger.ConfirmedIsStable | pkg/feeder/tx/tx.go:73-162 | if one of several attempts with the same messages has landed with code 0, and had not before the first of them, its prevote is the chain's and every transaction that can still land repeats it: everything signed earlier is dead |
| Ledger.AgreementExactly | pkg/feeder/tx/tx.go:97-140 | over every run of attempts with a transaction's messages, finding it landed means agreement exactly if it had not landed before the first of them or the chain then still stably held its prevote |
| Ledger.SignedAgain | pkg/feeder/oracle/oracle.go:71-79 | otherwise a stale sequence lets the old transaction be signed again and found landed, without agreement |
| Ledger.FreshSequenceAssures | pkg/feeder/tx/tx.go:99-140 | an account answer that was not stale when the round began is enough for the condition |
| Ledger.NewCommitmentAssures | pkg/feeder/oracle/oracle.go:71-79 | so is a commitment that no transaction has carried before for the validator |
| Ledger.StableUnderSettling | pkg/feeder/tx/tx.go:97-140 | a stable prevote stays the chain's prevote whatever lands later |
| Ledger.StableUnderOthers | pkg/feeder/voter/voter.go:246-255 | submissions of the other validators on the same account, and attempts that repeat a stable prevote, keep it stable |
| Node.Node.GetAccount | pkg/feeder/client/client.go:323-339 | any error or a possibly stale sequence, while transactions land |
| Node.Node.Broadcast | pkg/feeder/client/client.go:384-396 | whatever the reply, the transaction is in flight from then on |
| Node.Node.GetTx | pkg/feeder/client/client.go:400-411 | any error or the code with which exactly this transaction landed |
| Broadcaster.Broadcaster.BroadcastTxAttempt | pkg/feeder/tx/tx.go:97-180 | succeeds exactly if the account was read, the transaction signed and the node's check answered code 0; exactly if the first two succeed, one transaction is sent, with the given messages and the sequence just read |
| Broadcaster.Broadcaster.BroadcastTx | pkg/feeder/tx/tx.go:68-94 | a sequence mismatch, and nothing else, is followed by another attempt, up to three; each reads the sequence anew; the result is the last attempt's, and an accepted transaction is the last one signed |
| Broadcaster.MismatchExactly | pkg/feeder/tx/tx.go:217-228 | the error texts that are retried: those that mention the sequence and one of four complaints, in any letter case |
| Agreement.StoredIsOnChain | pkg/feeder/voter/voter.go:278-340 | between submissions, and however the chain moves on, the last landed prevote is the stored one, the next vote opens it, and nothing in flight changes it, if the confirmation of this prevote was assured |
| Agreement.LandedRevealFollowsCommitment | pkg/feeder/voter/voter.go:279-295 | on the chain every reveal that lands comes after a landing with code 0 of the commitment it opens |
| Agreement.RevealIsOfADraw | pkg/feeder/oracle/oracle.go:104-111 | whatever a transaction reveals is a prevote made earlier in the run, taken from the store by its call and no longer stored |
| Agreement.RevealedOnceExactly | pkg/feeder/voter/voter.go:279-295 | by text a vote is revealed by one call only, exactly if no two revealed prevotes coincide in salt, rates and validator |
| Agreement.AttemptsKeepConsistent | pkg/feeder/voter/voter.go:298-306 | a round of attempts keeps all invariants for what stays stored, landed or not |
| Agreement.ConfirmedKeepsConsistent | pkg/feeder/voter/voter.go:329-340 | a confirmed round may store its prevote: all invariants hold with it |
| Agreement.SettlesKeepsConsistent | pkg/feeder/voter/voter.go:138-193 | landings while the voter is idle keep all invariants |
| Submissions.SubmissionKeepsConsistent | pkg/feeder/voter/voter.go:266-372 | each of the five ways a submission can go keeps all invariants |
| Submissions.RunIsConsistent | pkg/feeder/voter/voter.go:246-255 | so does every run of submissions, for any validators in any order, with landings in between, from any account history |
| Submissions.LastTurnAgrees | pkg/feeder/voter/voter.go:298-340 | over every run: what a validator's last turn confirmed is stored, and if its transaction was assured when its round began the chain holds it whatever lands later |
| Submissions.FreshTurnAgrees | pkg/feeder/voter/voter.go:298-340 | over every run: if that transaction's sequence was not stale, or its commitment new, the stored prevote is the chain's whatever lands later |
| Submissions.EveryRevealIsCommitted | pkg/feeder/voter/voter.go:279-295 | over every run: what a transaction reveals had its commitment landed with code 0 when it was sent, and before it lands itself |
| Submissions.EachDrawRevealedOnce | pkg/feeder/voter/voter.go:279-340 | over every run: each prevote that was made is revealed by one submission call at most |
| Submissions.NextTurnReveals | pkg/feeder/voter/voter.go:308-336 | a validator's next submission reveals exactly what its last one confirmed, by vote or by recovery, and nothing if both rounds failed: after a recovery only one period is missed |
| Submissions.StaleSequenceBreaksAgreement | pkg/feeder/voter/voter.go:308-336 | a run of three submissions, all for the same prices, after which the stored prevote opens but is not the chain's, and is revealed by two calls |
| Submissions.PrevotesThatDiffer | pkg/feeder/oracle/oracle.go:71-79 | for any prices and an injective hash different prevotes exist that list the same rates, under two salts |
| Voter.Voter.VerifyTxResult | pkg/feeder/voter/voter.go:475-503 | one query; succeeds exactly on the answer code 0, which means that this transaction landed so; the other answers give the two errors |
| Voter.Voter.CreatePrevote | pkg/feeder/oracle/oracle.go:42-79 | a commitment, under a newly drawn salt, to a vote string that lists exactly the given prices; fails only without prices or salt |
| Voter.Voter.BroadcastVoteTx | pkg/feeder/voter/voter.go:375-472 | broadcasts until one is accepted, and gives up only after maxRetries failures; succeeds exactly if a broadcast, the last one signed, was accepted and the query for its transaction answered code 0 |
| Voter.Voter.FirstRound | pkg/feeder/voter/voter.go:266-306 | signs exactly the reveal of the stored prevote, if any, and a new commitment to the given prices under a new salt; stores the new one on success, drops the old one on a failed transaction, changes nothing if no prevote could be made, which happens only without prices or salt |
| Voter.Voter.Recover | pkg/feeder/voter/voter.go:308-336 | the recovery signs only a fresh commitment to the given prices, under a new salt, and stores it exactly if confirmed |
| Voter.Voter.SubmitVoteForValidator | pkg/feeder/voter/voter.go:266-372 | continues the run by one step for the validator, which says which of the five outcomes it was, with the messages signed in each round and the prevotes left; each prevote made lists the given prices under a salt of its own; a recovery follows every failed first round |
| Voter.OutcomeExactly | pkg/feeder/voter/voter.go:298-336 | the outcome is a vote or a recovery exactly if the first or, after a failed first, the second round had its broadcast accepted and its transaction fetched with code 0, and it is that transaction |
| Voter.Voter.PerformVoteCycle | pkg/feeder/voter/voter.go:196-263 | reaches submission under exactly four conditions, then serves each validator once, in turn, with the rates converted from the fetched prices, and records the period; otherwise changes neither chain, prevotes, run nor period |
| Voter.Voter.SubmitForAll | pkg/feeder/voter/voter.go:246-255 | one step for each validator, in order, whatever the outcomes |
| Voter.Voter.Start | pkg/feeder/voter/voter.go:139-193 | over any list of events, with the chain moving between them, the state is the end of a run of submissions, which are those of `Schedule.Run`, each for the prices of one of the events |
| Voter.Voter.ValidIsConsistent | pkg/feeder/voter/voter.go:139-193 | in every state between submissions the stored prevotes and the chain satisfy the invariants |
| Voter.CommittedRatesAreFetched | pkg/feeder/voter/voter.go:196-263 | the vote string of every prevote made in a run splits into exactly the truncated rates converted from the prices fetched at one event, one rate for each denom whitelisted then |
| Schedule.SubmittedAtMostOnce | pkg/feeder/voter/voter.go:196-263 | if the run does not return to a period it has left, no (period, validator) pair is submitted twice, whichever cycles fail early |
| Schedule.NotAgain | pkg/feeder/voter/voter.go:199-203 | a period that was voted is not submitted again by the rest of the run |
| Schedule.RunExactly | pkg/feeder/voter/voter.go:196-237 | an event adds a submission for each validator exactly if it is a period other than the one submitted last, its prices were fetched, and the whitelist of the last parameter update is not empty and has a rate |
| Stream.SubmittedOncePerPeriod | pkg/feeder/eventstream/stream.go:149-169 | with a fixed vote period, known from the start or later, and block heights that do not decrease, over the full uint64 range, no pair is submitted twice |
| Feeder.RunFeeder | cmd/oracle-go/main.go:415-451 | stream and voter from their constructors: the voter, receiving what the stream emits, submits no (period, validator) pair twice |
| Stream.AnnouncedPeriodsNoReturn | pkg/feeder/eventstream/stream.go:149-169 | announced periods never return to a period they have left, and each times the vote period is the announced height |
| Stream.ConsecutiveBlocksAnnounceAll | pkg/feeder/eventstream/stream.go:149-169 | consecutive blocks announce exactly the periods whose first height they reach, in order, without gaps |
| Stream.AnnouncementsExactly | pkg/feeder/eventstream/stream.go:143-169 | an input announces something exactly if it is a block whose next height is a multiple of the vote period last set, and then that height and period |
| Stream.Stream.VotingPeriodLoop | pkg/feeder/eventstream/stream.go:103-172 | over any run of ticks, messages and parameter updates: what is emitted, and the failover state reached |
| Stream.Stream.HandleBlock | pkg/feeder/eventstream/stream.go:138-169 | a readable block resets the counter and announces its period |
| Stream.Stream.HandleConnectionFailure | pkg/feeder/eventstream/stream.go:304-319 | counts a failure and switches at the third, if there is another endpoint |
| Stream.Stream.HandleParseFailure | pkg/feeder/eventstream/stream.go:322-333 | switches at once, if there is another endpoint |
| Stream.Stream.SwitchToNextEndpoint | pkg/feeder/eventstream/stream.go:337-357 | afterwards the URL is the endpoint at the index, the index is the number of switches modulo the endpoints, the counter is 0 |
| Stream.CounterMeaning | pkg/feeder/eventstream/stream.go:118-141 | with several endpoints the counter is the number of stale ticks since the last message, modulo three |
| Stream.SwitchExactly | pkg/feeder/eventstream/stream.go:304-357 | a switch follows exactly an unreadable message, or a stale tick that makes the number of stale ticks since the last message a multiple of three |
| Stream.SingleEndpoint | pkg/feeder/eventstream/stream.go:304-333 | a single endpoint is never left; the counter then counts the stale ticks since the last good block |
| Oracle.NewPrevote | pkg/feeder/oracle/oracle.go:42-100 | fails exactly without prices or salt; otherwise the vote string lists the prices in ascending order of the denoms and the message carries the hash of "salt:vote:validator" |
| Oracle.VoteOrderUnique | pkg/feeder/oracle/oracle.go:47-53 | with distinct denoms the unstable sort leaves one order only, so the vote string does not depend on the input order |
| Oracle.PrefixExactly | pkg/feeder/oracle/oracle.go:60-64 | denoms that start with u and UST stay, others become micro denoms |
| Text.LeqExactly | pkg/feeder/oracle/oracle.go:51-53 | what comes first: a prefix, otherwise the smaller character at the first difference |
| Oracle.VoteStringRoundTrip | pkg/feeder/oracle/oracle.go:55-69 | splitting the vote string yields each denom once, in order, with its price rounded down to 18 decimals in canonical text |
| Numerals.DecTruncates | pkg/feeder/oracle/oracle.go:123-148 | the printed rate is canonical and is the price rounded down to a multiple of 10^-18 |
| Oracle.TruncationLoss | pkg/feeder/oracle/oracle.go:135-138 | less than 10^-18 is lost |
| Tuples.SplitOfTuplesText | pkg/feeder/voter/messages.go:148-174 | the number/denom splitter recovers every tuple that was joined |
| Tuples.TuplesTextExactly | pkg/feeder/oracle/oracle.go:66-69 | each tuple is written rate first, with a comma between one and the next |
| Conversion.ConvertToOraclePrices | pkg/feeder/voter/voter.go:534-668 | nothing without a LUNC quote, otherwise the conversion for the order in which the price map was visited |
| Conversion.ConversionCoverage | pkg/feeder/voter/voter.go:570-652 | exactly one entry for each whitelisted denom except an unpriced UST; a rate times its USD price is the LUNC price, uusd defaults to it, the rest abstain at 0 |
| Conversion.DenomExactly | pkg/feeder/voter/voter.go:686-731 | a currency code, alone or with /USD, /USDT or /USDC and in any letter case, gives u and the code in small letters, except usdr for SDR and XDR and UST for UST and USTC |
| Conversion.CurrenciesCovered | pkg/feeder/voter/voter.go:570-652 | by currency codes: each whitelisted denom that is quoted has one entry, whose rate times the quoted price is the LUNC price; of the others UST has none, uusd the LUNC price, the rest 0; nothing else |
| Conversion.LuncPriceExactly | pkg/feeder/voter/voter.go:545-562 | the LUNC price comes from LUNC/USD, else LUNC/USDT, else LUNC/USDC |
| Conversion.ConvertedNonEmpty | pkg/feeder/voter/voter.go:230-237 | exactly when the conversion yields anything to vote |
| Conversion.ConversionOrderIndependent | pkg/feeder/voter/voter.go:572-618 | the visiting order of the price map does not change which entries come out |
| Conversion.VoteStringDeterministic | pkg/feeder/voter/voter.go:534-668 | with distinct denoms the vote string is a function of the price map and the whitelist alone |
| Conversion.VoteTellsFetchedRates | pkg/feeder/voter/voter.go:534-668 | a vote string made from a conversion splits into exactly the converted rates, and these cover the whitelist as the fetched prices explain |
| Messages.BuildExchangeRatesString | pkg/feeder/voter/messages.go:65-82 | all prices, in the sorted order of the denoms, of which there is one and only one |
| Messages.RatesStringUnique | pkg/feeder/voter/messages.go:66-71 | there is only one such order, so the string is a function of the map |
| Messages.ValidateExchangeRates | pkg/feeder/voter/messages.go:143-188 | accepts exactly the non-empty strings whose pairs are all in order, and reports the first that is not |
| Messages.PairExactly | pkg/feeder/voter/messages.go:153-184 | a pair is in order exactly if it is a number, with an optional minus sign and at most one point, followed by a denom that begins with another character |
| Messages.ErrorExactly | pkg/feeder/voter/messages.go:153-184 | which of the errors a pair has |
| Messages.BuildValidateAgree | pkg/feeder/voter/messages.go:65-82 | the validator accepts what the builder builds and its split recovers every price |
| Messages.PreimageInjective | pkg/feeder/voter/messages.go:85-89 | the hashed text determines salt, rates and validator when salt and validator have no colon |
| Messages.CommitmentBinding | pkg/feeder/voter/messages.go:112-123 | under an injective hash a vote is accepted exactly when salt, rates and validator are those committed to |
| Messages.BindingExactly | pkg/feeder/voter/messages.go:112-123 | a prevote can be opened in one way only by votes with colon-free salt and validator, exactly if its own salt and validator are colon-free |
| Messages.ColonBreaksBinding | pkg/feeder/voter/messages.go:114-118 | with a colon in the salt or the validator a colon-free vote opens the prevote in another way |
| Medians.ComputeWeightedMedian | pkg/server/aggregator/median.go:155-191 | the loop computes the scan function |
| Medians.MedianHalves | pkg/server/aggregator/adaptive.go:278-314 | at most half of the weight is strictly below and at most half strictly above the weighted median |
| Medians.ScanFindsMedians | pkg/server/aggregator/median.go:175-190 | the scan never reaches its fallback: it stops at the lower median, and on an exact half averages it with the upper median |
| Medians.MedianPermutes | pkg/server/aggregator/median.go:105-111 | every sorted arrangement of the same entries has the same weighted median |
| Quotes.SumsExactly | pkg/server/aggregator/median.go:167-178 | what the sums of weights and of weighted prices are: each entry adds its term |
| Medians.IsMedianUnique | pkg/server/aggregator/median.go:155-191 | there is only one mean of lower and upper median |
| Medians.ZeroWeightBreaksOrderIndependence | pkg/server/aggregator/median.go:175-186 | with a zero weight the order of equal prices shows in the result |
| MedianAggregator.ComputeMedianWithOutlierRejection | pkg/server/aggregator/median.go:95-151 | sorts in place; the price is the weighted median of the quotes within 10% of the weighted median of all, or of all if there are none |
| MedianAggregator.PriceExactly | pkg/server/aggregator/median.go:105-143 | the same about the price of quotes in any order; a weighted median is the mean of lower and upper median |
| MedianAggregator.TwoPassBound | pkg/server/aggregator/median.go:110-143 | the price is within 10% of the initial median; if all quotes are rejected that median was the mean of two different neighbours and is the price |
| MedianAggregator.MedianFallbackExactly | pkg/server/aggregator/median.go:134-143 | all quotes are rejected exactly if the upper median exceeds the lower one by more than the factor 11/9 |
| MedianAggregator.MedianFallbackReached | pkg/server/aggregator/median.go:134-143 | two quotes, 9 and 12, for which that happens |
| MedianAggregator.MajorityDecides | pkg/server/aggregator/median.go:95-191 | if more than half of the weight quotes within [lo, hi] with hi at most 1.1 lo, none of it is rejected and the price is within [lo, hi], whatever the others send |
| MedianAggregator.MedianOrderIndependent | pkg/server/aggregator/median.go:106-143 | the price depends only on the multiset of (price, weight) pairs, for any result of the unstable sort |
| Averages.ComputeWeightedAverage | pkg/server/aggregator/average.go:92-110 | the loop computes the weighted average, 0 for no weight |
| Averages.AverageExactly | pkg/server/aggregator/average.go:92-110 | the average times the total weight is the sum of the prices times their weights |
| Averages.TermExactly | pkg/server/aggregator/average.go:101-104 | a term of that sum is a price times its weight |
| Averages.AverageWithinBounds | pkg/server/aggregator/average.go:92-110 | the weighted average lies between any bounds on the prices |
| AdaptiveAggregator.AdaptiveAggregator.constructor | pkg/server/aggregator/adaptive.go:32-48 | a sensitivity that is not positive becomes 1.5, an unknown mode the average |
| AdaptiveAggregator.AdaptiveAggregator.ComputeAdaptivePrice | pkg/server/aggregator/adaptive.go:118-202 | filter, fallback and final step on the given quotes, sorting the caller's list only in the fallback |
| AdaptiveAggregator.AdaptivePriceExactly | pkg/server/aggregator/adaptive.go:118-194 | the price is the weighted median or average of exactly the quotes within k sigma of the median, or of all if there are none |
| AdaptiveAggregator.MiddleExactly | pkg/server/aggregator/adaptive.go:205-226 | that median is the median of the prices without their weights |
| AdaptiveAggregator.StdDevExactly | pkg/server/aggregator/adaptive.go:228-249 | and sigma squared times the number of quotes is the sum of the squared deviations from it |
| AdaptiveAggregator.AdaptiveAggregator.ComputeStdDev | pkg/server/aggregator/adaptive.go:228-249 | the root of the mean squared deviation from the median |
| AdaptiveAggregator.DeviationIsRoot | pkg/server/aggregator/adaptive.go:240-248 | the deviation is non-negative and its square is the variance |
| AdaptiveAggregator.RejectionBound | pkg/server/aggregator/adaptive.go:135-164 | r of n quotes rejected at sensitivity k means r k^2 < n |
| AdaptiveAggregator.SomethingKept | pkg/server/aggregator/adaptive.go:166-174 | with k at least 1 or an odd number of quotes the fallback is unreachable |
| AdaptiveAggregator.AllRejected | pkg/server/aggregator/adaptive.go:166-174 | for every k below 1 and every even n there are n quotes that are all rejected |
| AdaptiveAggregator.AdaptiveFallbackExactly | pkg/server/aggregator/adaptive.go:166-174 | n quotes can all be rejected at sensitivity k exactly if k is below 1 and n is even |
| AdaptiveAggregator.FallbackOfQuotes | pkg/server/aggregator/adaptive.go:135-174 | given quotes are all rejected exactly if their number is even and the two middle prices are more than twice the threshold apart |
| AdaptiveAggregator.AdaptiveBound | pkg/server/aggregator/adaptive.go:183-194 | unless all quotes are rejected the final price is within k standard deviations of the median in both final modes; with k at least 1 or an odd number it always is |
| AdaptiveAggregator.AggregatorsCoincide | pkg/server/aggregator/adaptive.go:118-314 | where k^2 reaches n, average mode is the average aggregator and median mode the weighted median of all quotes |
| AdaptiveAggregator.AdaptiveOrderIndependent | pkg/server/aggregator/adaptive.go:129-194 | the price depends only on the multiset of (price, weight) pairs |
| Aggregators.GroupByCanonicalSymbol | pkg/server/aggregator/median.go:47-65 | for some order of all keys, each visited once, the groups are exactly the quotes of each canonical symbol in that order |
| Aggregators.GroupsExactly | pkg/server/aggregator/median.go:48-65 | each group holds exactly one quote for each key of its canonical symbol: the price its source sent, with the weight configured for the source, 1 if there is none |
| Aggregators.RegroupingPartitions | pkg/server/aggregator/median.go:56-64 | every price of every source is in exactly one group, once |
| Aggregators.GroupPermutes | pkg/server/aggregator/adaptive.go:62-79 | two visiting orders of the maps give the same groups up to order |
| Aggregators.PriceOrderIndependent | pkg/server/aggregator/average.go:92-110 | no aggregator's price depends on the order of its quotes |
| Aggregators.MedianModeExactly | pkg/server/aggregator/median.go:67-86 | the median aggregator's price of a group |
| Aggregators.AverageModeExactly | pkg/server/aggregator/average.go:66-85 | the average aggregator's price of a group |
| Aggregators.AdaptiveModeExactly | pkg/server/aggregator/adaptive.go:81-100 | the adaptive aggregator's price of a group, from its sensitivity and the deviation |
| Aggregators.Aggregate | pkg/server/aggregator/median.go:37-92 | the two errors exactly, otherwise one price for each canonical symbol, the same for every order in which the maps are visited |
| Aggregators.TrustedMajorityDecides | pkg/server/aggregator/median.go:37-92 | if sources with more than half of a symbol's weight quote it within [lo, hi] under any aliases, with hi at most 1.1 lo, the aggregated price is within [lo, hi] |
| Aggregators.AverageOverSources | pkg/server/aggregator/average.go:37-110 | in average mode a symbol's price times the configured weights of the sources that sent one is the sum of their prices times these weights |
| Symbols.NormalizeIdempotent | pkg/server/sources/normalize.go:41-61 | normalising twice is normalising once |
| Symbols.NormalizeExactly | pkg/server/sources/normalize.go:18-61 | both names become capital letters, WBTC becomes BTC, WETH and STETH become ETH, seven stablecoins become USD |
| Symbols.OthersUnchanged | pkg/server/sources/normalize.go:42-45 | symbols without exactly one slash stay as they are |
| Symbols.GetSymbolAliases | pkg/server/sources/normalize.go:65-101 | all combinations of base and quote names, each once, in any visiting order of the tables |
| Symbols.NamesExactly | pkg/server/sources/normalize.go:18-32 | the names that stand for a base and for a quote |
| Symbols.AliasesArePreimages | pkg/server/sources/normalize.go:65-101 | for a canonical symbol these are exactly the upper-case symbols that normalise to it |
| GrpcClient.Client.Failover | pkg/feeder/client/client.go:170-187 | the next endpoint, and all four service clients on its connection |
| GrpcClient.Client.WithFailoverRetry | pkg/feeder/client/client.go:244-311 | succeeds exactly if some allowed attempt does; where each attempt went and the index it leaves |
| GrpcClient.PersistentRotation | pkg/feeder/client/client.go:256-308 | attempt i of m persistent failures is made i/2 rotations on, and (m-1)/2 rotations are made |
| GrpcClient.AttemptsExactly | pkg/feeder/client/client.go:256-308 | whatever the outcomes: an attempt goes on to the next endpoint exactly if the one before failed persistently and was not the first on its endpoint; attempts end with a success or the last one allowed |
| GrpcClient.TransientExactly | pkg/feeder/client/client.go:262-285 | the error texts that count as transient |
| GrpcClient.TwoAttemptsEach | pkg/feeder/client/client.go:294-302 | whatever the outcomes, no endpoint is left after a single attempt |
| GrpcClient.NoRotation | pkg/feeder/client/client.go:262-298 | without a persistent failure, or with one endpoint, nothing rotates |
| GrpcClient.SomeRunReachesAllExactly | pkg/feeder/client/client.go:211-225 | some run of m failures, of whatever kinds, reaches all n endpoints exactly if m is at least 2n - 1 |
| GrpcClient.EveryRunReachesAllExactly | pkg/feeder/client/client.go:211-225 | every run of m failures reaches all n endpoints exactly if n is 1 |
| GrpcClient.ReachesAllByRotations | pkg/feeder/client/client.go:256-308 | for any outcomes, all n endpoints are tried exactly if the client rotates at least n - 1 times |
| GrpcClient.AllEndpointsExactly | pkg/feeder/client/client.go:211-225 | a run of persistent failures reaches all n endpoints exactly if there are at least 2n - 1 of them |
| GrpcClient.HalfTheEndpoints | pkg/feeder/client/client.go:223-225 | with as many attempts as endpoints, more than one, only the first half of them is tried, whatever the outcomes |

## Left out

- The exchange, fiat, DEX, EVM and Band sources, both websocket clients, the HTTP server, metrics, logging, configuration and keystore: network and plumbing.
- The chain's own oracle module, its voting-period window, address encoding and signing: the chain is sequence-gated landing and the last landed prevote; any other rule of the module shows as a result code.
- SHA-256 (section 6.2 of FIPS 180-4) is any function on text, injective where a lemma says so; salts are arbitrary texts.
- Rounding: decimals and weights are exact reals, so float64 rounding, the precision of decimal division and of the square root are not modelled; Float64ToDec starts from the digits that the float formatter yields.
- Timers, delays, channels and goroutines beyond the interleaving of chain events; the dry-run and verification modes, logging and gas and fee estimates.
- Prices are assumed positive for the median's division, and weights positive where a weighted median is taken, as main and the configuration check make them; averages take any.
- Non-ASCII case mapping and white space; strings are sequences of ASCII characters.
- The three Aggregate methods share one loop in the source's text and are one method here; timestamps, volumes and the source label of the result are not modelled.
- FormatPricesForOracle, FilterPricesByWhitelist, IsEquivalentSymbol, ParseExchangeRates: simple filters and wrappers.
