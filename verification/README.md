# Livepeer node: verified models

Dafny models of the parts of the Livepeer node that carry invariants: the probabilistic
micropayment protocol with its two ledgers, the redemption of winning tickets, the transcoder
schedulers, session selection, and a few data structures with a refinement or round-trip
property. `dafny verify dfyconfig.toml` checks the whole project.

| file | models |
|---|---|
| `Base.dfy`, `Sorting.dfy` | 64-bit conversions; sorting as the Go library promises it |
| `Accounting.dfy` | credit balances and the staging of a payment |
| `Segments.dfy` | one segment submission: the broadcaster's balance update, the orchestrator's pixel count |
| `Payments.dfy` | the orchestrator's payment processing |
| `Ledger.dfy` | both ledgers under every interleaving of staging, crediting, charging and settling |
| `TicketParams.dfy` | face value, winning probability, expected value, and the sender's check |
| `Recipient.dfy` | nonces: replay protection under concurrency, and the sender's counter |
| `Crediting.dfy` | ledgers and nonce check together |
| `SenderMonitor.dfy` | pending amounts under every interleaving of redemptions and cleanups; floats |
| `TicketQueue.dfy` | the queue of winning tickets over its store |
| `RemoteTranscoders.dfy`, `LoadBalancer.dfy` | the two schedulers |
| `Selection.dfy`, `SessionPool.dfy` | stake-weighted choice and the retry loop over it |
| `Capabilities.dfy` | capability bitstrings as sets |
| `Playlist.dfy` | merging and joining recorded playlists |
| `MemoryStore.dfy` | the ring cache behind the in-memory object store |
| `PoolHints.dfy`, `Amounts.dfy` | pool position hints; printing and parsing amounts |

## How the model reads the source

- Exact rationals (`big.Rat`) are `real`; `big.Int` is `int`. Where the source narrows to 64 or
  32 bits (`Int64()`, wrapped loads, `uint64` sequence numbers, `uint32` nonces) the model
  narrows too.
- Objects that the source updates in place are classes with the same fields; each lock-protected
  section is one method. Protocols between goroutines or between the two nodes are step
  functions over a state, and their theorems range over every run.
- Winning probabilities are taken over an arbitrary positive denominator, so that the theorems
  hold in particular for the source's 2^256 - 1.
- Clocks, random draws, network outcomes and database errors are parameters. Hashes,
  signatures and the HMAC behind `recipientRand` are not computed: a `Rand` is taken to commit to
  the ticket parameters, in particular to their expiration block.
- L1 heights may rise and fall, as the block watcher passes them on for removed blocks too, and
  blocks may be cleaned up in any order.
- A claimed price is read as the two numbers in the payment where it is checked and debited; in the
  ledgers it is one rational, of a positive number of pixels per unit.

## Where the code falls short of its comments

Each of these is proved as an exact condition, with a concrete instance where one is instructive.

- The rounding test of the winning probability looks at the low 64 bits of the remainder only.
  Tickets reach the required expected value if and only if these bits are zero just when the
  remainder is (`TicketEVReachesRequirement`, `WinProbRoundsDownOnHiddenRemainder`).
- A recipient whose face value equals its expected value offers tickets that every sender
  refuses (`OfferIsAccepted`, `BareFloatIsRefused`).
- The staged tickets cover the fee if and only if the missing credit is at most 2^63 - 1 tickets
  (`StagedCreditCovers`, `WrappedCountDoesNotCover`).
- Staging panics on a division by zero if and only if a ticket is worth nothing and the balance is
  below the minimum. A session in debt that is offered price 0 gets there (`StageUpdate`,
  `DenseJobEndsInDebt`, `FreeOfferPanics`).
- When saving a perceptual hash fails, the orchestrator charges a rendition that its answer does
  not contain (`UploadRenditions`). Dropped and answered submissions leave the ledgers equal if and
  only if this happened to no paid rendition, short of overflows (`LedgersAgree`,
  `AgreementIsNoLostHash`). What every other reply leaves behind is in `EveryDifferenceIsExplained`.
- Over a history of the chain no ticket can be accepted twice if and only if at no point of it the
  height last seen lies below an expiration block whose nonces were already cleaned up
  (`ReplayProtectionIff`). A height that falls back makes such a gap (`FallingHeightAdmitsReplay`).
- Processing a payment does not guarantee a price: without tickets none is looked at. Admission then
  implies a sufficient balance if and only if the claimed price is above 0, and the debit panics if
  and only if its pixels per unit are 0 (`AdmissionIffPriced`, `DebitFees`, `TicketlessPayments`).
- Removing a dead transcoder from the list loses live ones unless it is first, second or last
  (`RemovalKeepsOthers`, `RemovingThirdLosesFirst`).
- The sender's 32-bit nonce wraps, after which its tickets look like replays (`BatchIsTaken`); so do
  tickets of batches that overtake each other (`InterleavingIsTaken`, `OvertakenTicketIsRefused`).
- Joined recordings stay in order if and only if their spans fit 64 bits (`JoinAllIncreasing`).
- A delegate already in a full pool has the last entry evicted as if it were new; its hints are
  right if and only if it is not among the last two (`HintsOfFullPool`, `LastOfTwoGetsNoHints`).
- Amounts survive printing and parsing except negative ones with fewer digits than decimals
  (`RoundTrip`).
- The two-step capability check is the single equation in its comment and a comparison of lengths,
  which makes a difference for strings with a trailing empty word (`TwoStepsIff`,
  `TrailingWordBreaksEquation`).

## Model

| member | source | states |
|---|---|---|
| Accounting.Balances.Credit | core/accounting.go:139-147 | the amount is added to this stream's balance, a missing one counting as zero, and no other stream changes |
| Accounting.Balances.Debit | core/accounting.go:150-158 | the amount is taken from this stream's balance only |
| Accounting.Balances.Reserve | core/accounting.go:161-172 | the whole balance is returned and zeroed |
| Accounting.Balances.Balance | core/accounting.go:175-182 | a stream never touched is told apart from one at zero |
| Accounting.TicketCountIsLeast | core/accounting.go:37-50 | a natural number of tickets brings the credit to the minimum if and only if it is at least the computed one, which is 0 when the credit is there already |
| Accounting.StagedCreditCovers | core/accounting.go:43-54 | reserved plus new credit covers the minimum if and only if the missing credit is at most 2^63 - 1 tickets |
| Accounting.WrappedCountDoesNotCover | core/accounting.go:52 | a fee of 2^63 at ticket value 1 is staged as -2^63 tickets |
| Accounting.StagedCreditIsTight | core/accounting.go:43-54 | the staged credit exceeds the minimum by less than one ticket |
| Accounting.Balance.StageUpdate | core/accounting.go:34-55 | reserves the balance; no tickets if it reaches the minimum, otherwise the fewest that do, as long as 64 bits hold the number; panics, with the balance reserved, if and only if tickets are worth nothing and credit is missing |
| Segments.NewBalanceUpdate | server/segment_rpc.go:728-755 | the update is staged for the larger of fee and ticket value; without sender, balance or fee nothing is touched; an unknown session is an error that touches nothing; the division by zero, exactly |
| Segments.CompleteBalanceUpdate | server/segment_rpc.go:757-781 | the balance moves by the settlement of the update's status, for this stream only |
| Segments.CountPixels | server/segment_rpc.go:609-612 | adding in 64 bits is the sum, wrapped once |
| Segments.SumJoins | server/segment_rpc.go:609-612 | what is counted is the sum of the pixels |
| Segments.DebitIs | server/segment_rpc.go:605-614 | the debit is the answered pixels at their price, as long as 64 bits hold their number |
| Segments.NoPriceNoDebit | server/segment_rpc.go:605-614 | without a price nothing is debited |
| Segments.FinishUpdate | server/segment_rpc.go:523-614 | the status changes of a submission yield the finished update |
| Segments.FinishedSettles | server/segment_rpc.go:757-781 | settling the finished update leaves the balance as it was if unsent, nothing if sent in vain, and otherwise old balance and new credit less the debit |
| Segments.SubmitSegment | server/segment_rpc.go:418-635 | unsent submissions leave the balance as it was, those sent in vain forfeit what was staged, results cost exactly their pixels less the new credit, and a panic leaves the balance reserved; without sender, fee or price the respective part is missing |
| Segments.UploadRenditions | server/segment_rpc.go:190-240 | the answer is the clean prefix of renditions; charged pixels equal answered ones, in 64 bits, if and only if no hash upload failed for a rendition with pixels |
| Segments.UploadedAdds | server/segment_rpc.go:190-223 | each uploaded rendition adds its pixels to the charge, in 64 bits, and to the answer |
| Segments.FailureEnds | server/segment_rpc.go:192-219 | the first failure ends the upload: an unknown format makes the answer an error, a rendition not saved counts nowhere, and one saved without its hash is charged only |
| Segments.LostPixelsIff | server/segment_rpc.go:203-219 | the same as a property of any transcoding outcome |
| Segments.LossIsOneRendition | server/segment_rpc.go:203-219 | short of an overflow, the pixels charged and not answered are those of the rendition at which the upload stopped |
| Segments.HashFailureChargesUnansweredPixels | server/segment_rpc.go:207-219 | one rendition whose hash is not saved is charged and not answered |
| Payments.ProcessPayment | core/orchestrator.go:103-221 | the balance grows by the value of the tickets before the first one not accepted; the payment succeeds if and only if all were |
| Payments.SufficientBalance | core/orchestrator.go:304-314 | true if and only if the stream has a balance and it reaches the required value |
| Payments.DebitFees | core/orchestrator.go:317-324 | the balance falls by price times pixels, exactly, for this stream only; panics if and only if the claimed pixels per unit are 0 |
| Payments.FeeIsNotNegativeIff | core/orchestrator.go:322-323 | a debit does not raise the balance if and only if price times pixels is not negative |
| Payments.AdmitSegment | server/segment_rpc.go:106-121 | a segment is admitted if and only if it has no tickets, or a readable price and all tickets accepted, and, for a claimed price above 0, the balance suffices; tickets are credited up to the first error, at a readable price only |
| Payments.AdmissionIffPriced | server/segment_rpc.go:113-121 | admission implies a sufficient balance, for every balance, if and only if the claimed price is above 0 |
| Payments.TicketlessPayments | core/orchestrator.go:108-110 | payments without tickets are admitted at no price and at a negative one, with a panic and a raised balance |
| Ledger.StepConserves | server/segment_rpc.go:106-226 | every step of either party moves the difference of the ledgers by what its submission accounts for |
| Ledger.AdmissionDepends | server/segment_rpc.go:113-121 | a fully paid segment is admitted at no price over any balance, and at a price exactly over a known and sufficient one |
| Ledger.EveryRunConserves | server/segment_rpc.go:728-781 | in every run, failures included, the ledgers differ by the sum over all submissions |
| Ledger.StepKeepsConsistent | server/segment_rpc.go:106-226 | only fully accepted payments are admitted, only admitted segments charged, a reply reports what was served, and the bookings are those of accepted tickets, charged pixels and the reply |
| Ledger.EveryDifferenceIsExplained | server/segment_rpc.go:757-781 | in every run from equal ledgers, whatever fails, the ledgers differ by what is in flight and what each reply leaves behind: nothing if unsent, the bookings behind a failed send, the credit of a refusal, credit less fee for an error answer or a lost reply, the loss of an answer |
| Ledger.DriftOfOneSubmission | server/segment_rpc.go:764-780 | over every run of one submission the ledgers agree again if and only if its reply leaves nothing, reply by reply |
| Ledger.Classified | server/segment_rpc.go:757-781 | which submissions count as answered and as dropped |
| Ledger.LedgersAgree | server/segment_rpc.go:106-226 | in every interleaving of submissions dropped before delivery or answered, the ledgers differ by what is in flight less what answers lost, and with nothing in flight agree if and only if that is zero |
| Ledger.AgreementIsNoLostHash | server/segment_rpc.go:190-223 | without overflows they agree if and only if no answer lacks a paid rendition for want of its hash |
| Ledger.OrdinaryWhen | server/segment_rpc.go:190-223 | nothing overflows at prices that are not negative with pixels that 64 bits can count |
| Ledger.PaymentCredits | core/orchestrator.go:161-195 | receiving tickets one by one credits those before the first error, as processing the payment does, and changes nothing else |
| Ledger.PaymentReaches | server/segment_rpc.go:745-752 | staging and having every ticket accepted reaches the paid state |
| Ledger.PaymentCovers | server/segment_rpc.go:745-752 | after the payment the orchestrator holds at least fee and ticket value, even from a negative balance, if it held no less than the broadcaster |
| Ledger.JobKeepsAgreement | server/segment_rpc.go:190-226 | a submission paid, admitted, charged and answered changes the difference of the ledgers by the cost of the pixels not answered |
| Ledger.EverySegmentIsServed | core/orchestrator.go:304-314 | in every sequential run each payment makes the balance sufficient, also for a stream without a balance yet |
| Ledger.OfferedTicketsServe | pm/recipient.go:283-300 | with the recipient's own parameters every sequential run from empty ledgers is served if and only if the low-bits test sees the remainder |
| Ledger.DenseJobEndsInDebt | server/segment_rpc.go:775-780 | from empty ledgers, a segment answered with more pixels than estimated ends in debt |
| Ledger.FreeOfferPanics | core/accounting.go:43-44 | offered price 0, staging panics if and only if the session is in debt, as the one of `DenseJobEndsInDebt` is |
| TicketParams.FaceValueOffered | pm/recipient.go:238-281 | a face value is offered if and only if the float covers the expected value and one of the two redemption costs; it is the multiple of the cost, or of the expected value if that exceeds it, as far as the float goes |
| TicketParams.TicketEVReachesRequirement | pm/recipient.go:283-300 | the ticket value reaches the required one if and only if face value and requirement are equal or the low-bits test sees the remainder |
| TicketParams.WinProbIsTight | pm/recipient.go:283-300 | the probability is at most 1, less than one unit is given away, and a larger face value stays above the ticket value |
| TicketParams.WinProbRoundsDownOnHiddenRemainder | pm/recipient.go:293-299 | for a face value of 2^64 below the denominator, such as 2^256 - 1 - 2^64, a ticket is worth less than the required 1 |
| TicketParams.HiddenRemainderInUse | pm/recipient.go:21-22 | in particular for the denominator 2^256 - 1 |
| TicketParams.TermsAccepted | pm/sender.go:164-192 | face value equal to expected value is refused whoever the sender; a larger one is accepted exactly by solvent senders within their limit |
| TicketParams.OfferIsAccepted | pm/sender.go:148-193 | a sender accepts the recipient's offer if and only if it is in time, solvent and within its limit and the face value exceeds the expected value; otherwise equal values are refused by every sender |
| TicketParams.SenderIsSoundIff | pm/sender.go:83-98 | a sender is sound if and only if it has reserve and deposit and does not withdraw soon |
| TicketParams.AcceptedByAll | pm/sender.go:149-170 | missing terms are refused; terms that never expire, and in time worthless ones, are accepted whoever the sender |
| TicketParams.FreeOffer | pm/recipient.go:186-222 | without a price the offer is a ticket of no value, accepted if and only if it is in time |
| TicketParams.BareFloatIsRefused | pm/recipient.go:247-257 | a float of just the expected value leads to an offer that is refused |
| Recipient.Recipient.UpdateSenderNonce | pm/recipient.go:334-350 | a nonce is recorded if and only if it exceeds the highest recorded one |
| Recipient.Recipient.CleanupNonces | pm/recipient.go:367-375 | exactly the entries expired at this block are deleted |
| Recipient.Recipient.ReceiveTicket | pm/recipient.go:141-175 | no error if and only if the ticket is valid, its nonce fresh and its parameters not expired; winning is reported regardless |
| Recipient.StepKeepsSafe | pm/recipient.go:141-175 | every step without a check in a gap keeps recorded nonces covered by an entry or cleaned up, and replays doomed |
| Recipient.AcceptedNoncesIncrease | pm/recipient.go:334-377 | over every concurrent run without a check in a gap, the accepted nonces under one secret number strictly increase, so no ticket is accepted twice |
| Recipient.ReplayProtectionIff | pm/recipient.go:141-175 | for every history of blocks seen and cleaned up: no run over it accepts a replay if and only if at no point of it the height lies below an expiration block already cleaned up |
| Recipient.RisingIsGapFree | pm/recipient.go:357-377 | histories whose height does not fall and whose cleanups follow seen blocks have no such point |
| Recipient.RisesAndCleansUp | pm/recipient.go:357-377 | a height that rises or stays and is then cleaned up is such a history |
| Recipient.FallingHeightAdmitsReplay | eth/watchers/timewatcher.go:207-217 | over a history that rises to `high`, is cleaned up and falls back to `low`, no run accepts a replay if and only if no tickets expire in between |
| Recipient.PaymentSession.CreateTicketBatch | pm/sender.go:127-136 | the batch carries the next nonces, modulo 2^32; a failure to sign uses up the nonces drawn |
| Recipient.BatchIsTaken | pm/sender.go:127-136 | the recipient takes a whole batch if and only if the counter does not wrap within it |
| Recipient.TakenIffIncreasing | pm/recipient.go:334-350 | tickets in whatever order are all taken if and only if their nonces increase from the one recorded |
| Recipient.InterleavingIsTaken | pm/sender.go:127-136 | tickets of concurrently delivered batches are all taken if and only if they arrive in the order drawn |
| Recipient.OvertakenTicketIsRefused | pm/recipient.go:340-342 | an instance with two batches of one ticket |
| Crediting.JointRunProjects | core/orchestrator.go:172-195 | a joint run of payments and nonce checks is a run of the ledgers and a run of the recipient |
| Crediting.NoTicketCreditedTwice | core/orchestrator.go:161-195 | in every joint run over a history without gaps the ledgers credit exactly the tickets listed, and no ticket twice |
| Crediting.HandCredits | core/orchestrator.go:172-195 | a ticket is credited exactly if it was accepted and all before it in the payment were, once and only when its outcome is known |
| Crediting.FirstTicketIsCredited | core/orchestrator.go:161-195 | a run in which the first ticket of a stream is credited |
| SenderMonitor.LocalSenderMonitor.Cache | pm/sendermonitor.go:258-282 | an unknown sender is cached with nothing pending |
| SenderMonitor.LocalSenderMonitor.AddFloat | pm/sendermonitor.go:124-139 | refused if and only if less than the amount is pending; otherwise exactly that sender's amount falls |
| SenderMonitor.LocalSenderMonitor.SubFloat | pm/sendermonitor.go:142-152 | exactly that sender's pending amount grows |
| SenderMonitor.StepKeepsInv | pm/sendermonitor.go:287-320 | every step keeps one running consumer per cached sender and the accounts right |
| SenderMonitor.PendingIsAccountedFor | pm/sendermonitor.go:394-412 | in every interleaving pending is the sum of the face values in redemption, at least what any consumer is about to put back, and no putting back is refused |
| SenderMonitor.UncoveredIsRefused | pm/sendermonitor.go:124-139 | putting back more than is pending would be refused and counted |
| SenderMonitor.RedemptionRuns | pm/sendermonitor.go:394-412 | a run of one redemption, from caching the sender to its cleanup |
| SenderMonitor.CleanupForgetsNothing | pm/sendermonitor.go:339-352 | a sender is removed only when nothing is pending |
| SenderMonitor.FloatIsFunded | pm/sendermonitor.go:191-214 | a ticket within the float is covered by the available funds, before and after it becomes pending |
| SenderMonitor.AllocIsLargestShare | pm/sendermonitor.go:216-231 | allocation and claims together are the largest share the reserve holds for every pool member |
| SenderMonitor.FloatIsAlloc | pm/sendermonitor.go:191-214 | the float is the allocation exactly while nothing is pending or the deposit covers it three times |
| SenderMonitor.PendingLowersFunds | pm/sendermonitor.go:234-254 | available are allocation and deposit, less what is pending |
| SenderMonitor.OfferIsFunded | pm/recipient.go:247-257 | every ticket offered at a price is covered by the sender's available funds |
| TicketQueue.TicketStore.StoreWinningTicket | common/db.go:690-719 | a ticket is appended unless its signature is stored already |
| TicketQueue.TicketStore.WinningTicketCount | common/db.go:806-819 | the length of the sender's queue |
| TicketQueue.TicketStore.SelectEarliestWinningTicket | common/db.go:764-803 | the head of the sender's queue, if any |
| TicketQueue.TicketStore.MarkWinningTicketRedeemed | common/db.go:723-743 | the records with this signature, and only they, become redeemed |
| TicketQueue.MarkFirstDrops | common/db.go:307-333 | marking removes a prefix of the queue and nothing else |
| TicketQueue.TicketQueue.Submit | pm/queue.go:143-158 | the head is logged and marked if and only if its outcome is final and stored |
| TicketQueue.TicketQueue.HandleBlockEvent | pm/queue.go:115-164 | whatever arrives or fails, only this sender's unredeemed tickets of the last rounds with expired parameters are submitted, always the oldest, and a prefix in creation order is marked; if every outcome is final and the tickets have expired, none of them remain |
| TicketQueue.NeverResubmitted | pm/queue.go:124-158 | a marked ticket is not submitted again in the pass |
| TicketQueue.StaysRedeemed | common/db.go:723-743 | a redeemed record stays so through storing and marking |
| TicketQueue.TicketQueue.HandleBlockEvents | pm/queue.go:115-164 | over any number of passes in any rounds, a marked ticket is never submitted again, and the tickets redeemed meanwhile are exactly the marked ones |
| RemoteTranscoders.SortByLoadFactor | core/orchestrator.go:791-801 | a permutation descending by load factor |
| RemoteTranscoders.LoadFactorOrder | core/orchestrator.go:791-801 | load factors compare as loads in proportion to capacities |
| RemoteTranscoders.RemoveFromRemoteTranscoders | core/orchestrator.go:874-898 | the list the source computes, shorter than before and with no new entries |
| RemoteTranscoders.RemovedAt | core/orchestrator.go:874-898 | what is left, by the position of the removed entry |
| RemoteTranscoders.UnlistedEmpties | core/orchestrator.go:886-897 | removing a transcoder that is not listed empties the list |
| RemoteTranscoders.RemovalKeepsOthers | core/orchestrator.go:886-897 | all others stay listed if and only if the removed one is first, second or last, or the list is empty |
| RemoteTranscoders.RemovingThirdLosesFirst | core/orchestrator.go:886-897 | an instance with four transcoders |
| RemoteTranscoders.RemoteTranscoderManager.Register | core/orchestrator.go:836-850 | a new, unloaded transcoder is listed and live; loads, order and uniqueness hold |
| RemoteTranscoders.RemoteTranscoderManager.Disconnect | core/orchestrator.go:860-864 | only liveness changes |
| RemoteTranscoders.RemoteTranscoderManager.CompleteStreamSession | core/orchestrator.go:956-964 | the session is gone, its transcoder's load one lower, the list a sorted permutation |
| RemoteTranscoders.RemoteTranscoderManager.FindCompatible | core/orchestrator.go:908-916 | the last compatible entry, or none |
| RemoteTranscoders.CompatibleIs | core/orchestrator.go:908-916 | compatible are the transcoders that have every capability asked for, in a string long enough |
| RemoteTranscoders.RemoteTranscoderManager.Place | core/orchestrator.go:937-947 | the session goes to a compatible transcoder of least load factor, or every compatible one is full |
| RemoteTranscoders.RemoteTranscoderManager.SelectTranscoder | core/orchestrator.go:900-952 | terminates; a session keeps a live transcoder; a new one gets a least loaded one that has every capability asked for; the two errors mean that all others are full, and that each lacks a capability or has a shorter string |
| RemoteTranscoders.RemoteTranscoderManager.Run | core/orchestrator.go:836-998 | over every run loads count sessions within capacity, the list is sorted and duplicate-free, and a session is not moved while its transcoder is live and it is not completed |
| LoadBalancer.LeastLoaded | core/lb.go:136-146 | a device of least load, the first such in the rotation |
| LoadBalancer.SlotIs | core/lb.go:136-146 | the search goes upwards from the start and round |
| LoadBalancer.TurnIsRespected | core/lb.go:136-146 | a device loaded as little is taken at its turn, unless an earlier one was |
| LoadBalancer.LoadBalancingTranscoder.CreateSession | core/lb.go:74-132 | at most one session per job; a new one goes to a least loaded device, the first such in the rotation, which moves on; loads stay the sums of costs |
| LoadBalancer.LoadBalancingTranscoder.CleanupSession | core/lb.go:113-123 | exactly this session goes, with its cost |
| LoadBalancer.LoadBalancingTranscoder.IdleIsUnloaded | core/lb.go:109-121 | without sessions every load is 0 |
| LoadBalancer.LoadBalancingTranscoder.Run | core/lb.go:54-146 | every interleaving of creations and terminations keeps the loads right |
| Selection.RunDown | server/selection.go:208-236 | a draw selects the session whose stake interval holds it; with no stake, the first with an address |
| Selection.TotalStake | server/selection.go:203-206 | the sum of fetched stakes is the weight of all sessions |
| Selection.DrawsMatchStake | server/selection.go:214-234 | as many draws fall on a session as its address has stake, for the first session of the address, and none for later ones |
| Selection.DrawsAscend | server/selection.go:214-234 | draws are given out in the order of the sessions |
| Selection.EveryDrawFalls | server/selection.go:214-234 | every draw from 1 to the total falls on a session |
| Selection.FallsOnce | server/selection.go:214-234 | and on one only |
| Selection.WeightedDraw | server/selection.go:181-236 | fetching, totalling and drawing yield the session of the draw |
| Selection.NumbersMatchStake | server/selection.go:181-236 | over the store's own stakes, a session is drawn for as many random numbers as its address has stake, if it is its first session, and for none otherwise |
| Selection.NoStakeDrawsFirst | server/selection.go:208-234 | without any stake the first session with an address is drawn, if there is one |
| Selection.MinLSSelector.Add | server/selection.go:123-125 | the sessions join the ones without a score |
| Selection.MinLSSelector.Complete | server/selection.go:128-130 | the session joins the ones with a score |
| Selection.MinLSSelector.Clear | server/selection.go:154-158 | no session remains |
| Selection.MinLSSelector.RemoveUnknownSession | server/selection.go:239-243 | exactly that session leaves the list |
| Selection.MinLSSelector.ChooseUnknown | server/selection.go:173-234 | the random or the weighted choice |
| Selection.MinLSSelector.SelectUnknownSession | server/selection.go:161-237 | off-chain the first, on-chain the drawn session, which alone leaves the list; none if and only if there is none, the stakes cannot be read or no session has a recipient |
| Selection.MinLSSelector.NothingUnknownIs | server/selection.go:161-200 | when no session without a score can be had |
| Selection.MinLSSelector.Select | server/selection.go:134-146 | a session of least score if it is good enough or there is no other; otherwise one without a score; only it leaves |
| Selection.MinLSSelector.PreferenceIs | server/selection.go:134-146 | sessions without a score are preferred exactly when there is no score, or one to choose and every score above the threshold |
| SessionPool.SelectSession | server/broadcast.go:202-212 | the first session reusable at the time it is looked at, or none is |
| SessionPool.ReusableUntilDeadline | server/broadcast.go:202-212 | a session with segments in flight is reusable exactly before so many segment lengths have passed since the oldest was sent |
| SessionPool.FirstComesFirst | server/broadcast.go:202-212 | no entry reusable before the returned one is passed over |
| SessionPool.RemoveSessionFromList | server/broadcast.go:192-200 | every occurrence and nothing else is dropped |
| SessionPool.SessionPool.NextSession | server/broadcast.go:233-251 | the first recently used session that is reusable; else one from the selector; else, the selector having none to give, the first reusable one used less recently |
| SessionPool.SessionPool.Round | server/broadcast.go:230-283 | one session fewer remains to be looked at; it is picked if and only if still mapped; no mapped session is lost; the round stops only when nothing is to be had |
| SessionPool.SessionPool.SelectSessions | server/broadcast.go:214-300 | terminates for every clock and choice; at most the requested number, and fewer only when nothing more is to be had; all in the map, no mapped session is lost, and the selected become the last sessions; none twice if each session existed once before |
| SessionPool.SelectingMeans | server/broadcast.go:214-300 | what a selection keeps, spelled out for one session |
| SessionPool.SingleWhen | server/broadcast.go:214-300 | sessions that are in the selector once, or among the last ones instead, exist once |
| SessionPool.ExhaustedMeans | server/broadcast.go:230-255 | when nothing more is to be had, spelled out |
| Capabilities.NewCapabilityString | core/capabilities.go:179-195 | the string holds exactly the valid members of the list and does not end in an empty word |
| Capabilities.Layout | core/capabilities.go:185-192 | where a capability is in the string, by instances |
| Capabilities.CompatibleWith | core/capabilities.go:197-208 | the word-wise check |
| Capabilities.CoversIsSubset | core/capabilities.go:197-208 | for all strings the check is inclusion together with the comparison of lengths |
| Capabilities.CompatibleIsSubset | core/capabilities.go:197-208 | the check holds if and only if the valid members of one list are among the other's |
| Capabilities.CapabilitiesCompatible | core/capabilities.go:317-339 | mandatories are known and the request is covered; nothing is compatible with no capabilities |
| Capabilities.TwoStepsIff | core/capabilities.go:327-338 | for all strings the two checks are the single equation together with the lengths not falling from mandatories to request to offer |
| Capabilities.TwoStepsAreOneEquation | core/capabilities.go:327-338 | without trailing empty words the two checks equal the single equation, missing words reading as zero |
| Capabilities.TrailingWordBreaksEquation | core/capabilities.go:199-201 | with a trailing empty word they do not |
| Playlist.Search | core/playlistmanager.go:175-177 | the position of a number in an increasing track |
| Playlist.AddSegment | core/playlistmanager.go:170-195 | shortcut, search, append and sort amount to insertion in place |
| Playlist.MergeInto | core/playlistmanager.go:163-197 | the loop merges all segments and keeps the track increasing |
| Playlist.MergeAllMerges | server/mediaserver.go:1375-1393 | from nothing, any pieces give an increasing track with exactly their numbers, the first segment seen winning |
| Playlist.JsonPlaylist.AddTrack | core/playlistmanager.go:163-197 | the named track becomes the merge, the others stay |
| Playlist.JsonPlaylist.AddDiscontinuedTrack | core/playlistmanager.go:143-160 | the named track becomes the join |
| Playlist.JoinIncreasing | core/playlistmanager.go:143-160 | a join is increasing if and only if the numbers fit 64 bits |
| Playlist.JoinNumbers | core/playlistmanager.go:143-160 | numbers go on from the one after the last, in 64 bits |
| Playlist.JoinAllIncreasing | server/mediaserver.go:1401-1411 | the same for any number of recordings |
| Playlist.JoinAllKeeps | server/mediaserver.go:1401-1411 | no segment is lost or reordered, and exactly the join points are flagged |
| MemoryStore.DataCache.Insert | drivers/local.go:250-264 | the ring behaves as a bounded queue: update in place, or append and displace the oldest |
| MemoryStore.DataCache.GetData | drivers/local.go:266-273 | lookup in that queue |
| MemoryStore.EntrySurvives | drivers/local.go:250-264 | an entry is still found after any insertions under other names if and only if those of names then new are no more than older entries and free slots |
| MemoryStore.InsertedSurvives | drivers/local.go:250-264 | the same for data just inserted; as a new entry it survives one less than the cache length of new names |
| MemoryStore.MemorySession.EndSession | drivers/local.go:72-83 | nothing is held any more |
| MemoryStore.MemorySession.SaveData | drivers/local.go:198-212 | the directory's queue takes the file, other directories are untouched; refused after the end |
| MemoryStore.MemorySession.GetData | drivers/local.go:160-184 | lookup under the address without its prefix |
| MemoryStore.MemorySession.AddressLeadsBack | drivers/local.go:223-233 | the returned address strips back to the saved path |
| MemoryStore.MemorySession.PathsAreKept | drivers/local.go:160-171 | a name that is no address is taken for a path |
| MemoryStore.MemorySession.SaveThenRead | drivers/local.go:160-212 | saved data is read back through the returned address |
| MemoryStore.MemorySession.SaveAll | drivers/local.go:198-212 | after any saves a directory holds the queue of those made to it |
| MemoryStore.MemorySession.StaysReadable | drivers/local.go:160-273 | a saved file is readable through its address after any other saves if and only if those beside it brought no more new names than older files and free slots, for a new file fewer than the cache length |
| PoolHints.StableSortIsStable | eth/client.go:1049-1052 | sorted, a permutation, equal stakes in the original order |
| PoolHints.ReorderedPlaces | eth/client.go:1034-1052 | before the delegate stakes are at least its own, after it less; nobody else changed |
| PoolHints.RemoveDelegate | eth/client.go:1034-1041 | the pool without the delegate |
| PoolHints.FindTranscoderHints | eth/client.go:1062-1082 | the neighbours of the delegate, null at an end or when it is absent |
| PoolHints.SimulateTranscoderPoolUpdate | eth/client.go:1033-1060 | the neighbours in the simulated pool, null when the delegate is evicted; in a pool that is not full, its neighbours in the new order |
| PoolHints.HintsOfFullPool | eth/client.go:1054-1057 | for a full pool the hints are those of the unevicted order if and only if the delegate is not among the last two, or alone |
| PoolHints.LastOfTwoGetsNoHints | eth/client.go:1054-1057 | an instance with two delegates |
| Amounts.FromBaseAmount | eth/helpers.go:114-140 | padding, splitting and trimming yield the printed amount |
| Amounts.PrintedDenotes | eth/helpers.go:114-140 | an amount that is not negative is printed as its digits in two parts, as many in the fraction as decimals |
| Amounts.GluedIs | eth/helpers.go:125-139 | the parts are glued with a point, without trailing zeros, and without the point if nothing else is left |
| Amounts.ToBaseAmount | eth/helpers.go:81-112 | matching, splitting and padding yield the parsed amount or the error |
| Amounts.ParsedDenotes | eth/helpers.go:81-112 | a text with a point denotes the integer before it continued by the digits behind it, filled up with zeros, if these are not too many |
| Amounts.IntegersAre | eth/helpers.go:106-110 | integers are digits, possibly behind a sign, and nothing else |
| Amounts.RoundTrip | eth/helpers.go:81-140 | parsing undoes printing if and only if the amount is not negative or has at least as many digits as decimals |
| Amounts.NegativeFails | eth/helpers.go:117-139 | otherwise the printed text is refused as not a number |

## Left out

- HTTP, gRPC, protobuf, SQL text, S3 and GCS storage, the command line and metrics: plumbing.
- Keccak, HMAC, ECDSA, ffmpeg, m3u8 and `container/heap` internals: the heap serves a session of
  least score, `sort` any sorted permutation.
- Expiry of idle balances, request timeouts and context cancellation: only their effects appear,
  as lost replies and ended sessions.
- The per-address level of the balances: the model holds the balances of one address.
- Fee estimation from profiles, price overhead, cost estimation of profiles: arithmetic without an
  invariant.
- Liveness of the sender-monitor cleanup: it waits for a consumer while holding the lock. Only
  safety is proved.
- The redeemer's remote float, orchestrator suspension counts and the transaction nonce manager.
- Refreshing a session pool, completing its sessions, and the trusted/untrusted choice above it.
- The worker loop of a local transcode session.
- Ledger.EverySegmentIsServed: a series counts up to the first segment whose tickets do not fit a 64-bit count; what a wrapped count pays for may or may not suffice.
- Selection.TotalStake: the sum of stakes does not wrap at 64 bits.
- Selection.RunDown: stakes are not negative.
- SenderMonitor.FloatIsFunded: deposit and pending amount are compared exactly, where the source compares a quotient rounded to 53 bits.
- RemoteTranscoders.SortByLoadFactor: load factors are exact, where the source compares floating-point quotients.
- RemoteTranscoders.RemoteTranscoderManager.SelectTranscoder: capacities are positive, which registration enforces (server/ot_rpc.go, line 300).
- TicketQueue.TicketQueue.HandleBlockEvent: the round does not change within a pass, and creation times order the records strictly.
- MemoryStore.DataCache.Insert: file names are not empty; with an empty name the source overwrites a free slot.
- MemoryStore.MemorySession.GetData: the lookup across sessions that only the source's test mode uses is not modelled.
- PoolHints.SimulateTranscoderPoolUpdate: works on values; that the source reorders the caller's slice is not captured.
- LoadBalancer.LoadBalancingTranscoder.CleanupSession: runs once per session, after its worker loop, as the source arranges it.
- Recipient.AcceptedNoncesIncrease: that equal secret numbers imply equal parameters is assumed.
