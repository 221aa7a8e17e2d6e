# Verification of the vesting-drip streams

A Dafny 4.11 model of the vesting contract and of the backend state machines around it, with proofs.
`dafny verify dfyconfig.toml` checks the whole project.

**The contract.** Three kinds of stream pay tokens out of one account as the ledger advances.

- *Fixed rate* (`FixedRate`, `FixedRateRuns`, `FixedAmounts`, `ClaimFees`, `VestingBooks`, `VestingClaims`): a cliff,
  pauses, claims with a protocol fee, cancel, clawback and emergency drain. `FixedRate` states every effect through
  what has vested at a ledger; `FixedAmounts` computes it by the contract's own formulas and is proved to agree.
  `FixedRateRuns` is about whole runs: conservation, and pauses as pure shifts of time. `VestingClaims` is about a
  claim of several streams: who is paid what, and exactly when it succeeds.
- *Variable rate* (`Segments`, `VariableStream`): rate segments, and both loops that add them up.
- *Milestones* (`Milestones`): shares of a deposit, each rounded down.
- *The account* (`Accounts`, `VestingContract`): the entry points of all three kinds over one set of balances. What
  the account holds beyond all that it owes is spare; every entry point states what it does to that, and as long as it
  is not negative only a token itself can refuse a payout.

`StreamIds` is the keyed storage of stream ids, `FuzzMirrors` the arithmetic of the two fuzz harnesses.

**The backend.** `RpcPool` (round-robin with quarantine), `CircuitBreaker` (judged by the history of its calls),
`StreamStatus` (transitions and audit trail), `VersionRecorder` (read the maximum, then insert) and
`WsStreams` (connections per address, heartbeats, replay buffer).

`Machine` holds the u32 and i128 types: an unchecked addition or subtraction of the contract is a proof
obligation here, so overflow and underflow are proved absent, and each checked or saturating operation is
written out. `TokenBook` holds balances and the sum of debts. An `Err` undoes the whole invocation. Ledgers and
times, a token's refusal to transfer (`frozen`) and its support for clawback are parameters.

Properties that the code does not have, each with its exact condition and an input:

- A fixed-rate stream is created for a deposit divided by `RATE_DECIMALS` and paid out undivided, so that each creation
  leaves the account short, unless it makes up for it by forgetting a stream 0 (`VestingContract.CreatedUnfunded`;
  input `UnfundedExample`).
- A resume close to the last u32 ledger saturates, shortens the stream and strands tokens
  (`FixedRateRuns.LossIsSaturation`; input `VestingContract.SaturatedResumeExample`).
- The getter without an id looks under the legacy key alone, so it finds a live stream 0 only until that is next
  written (`StreamIds.StreamStore.GetSchedule`, `StoredIsNotFound`). A stream created by this code cannot be paused,
  and one from an older deployment that is paused stays paused, out of reach of resume, drain, claim and view
  (`VestingContract.PausedForGood`, for every state in which the pause succeeds).
- Creation stores under id 0, whichever id it allocates and returns, and replaces a live stream 0
  (`StreamIds.StreamStore.Create`, `VestingContract.VestingDrips.CreateVestingStream`, for every state).
- Cancel and clawback pay the stream with the given id but remove the one with id 0 (`VestingBooks.SurplusKeptIff`).
  This code never stores a new stream under another id, as README.md:159 says it does, so only a stream that an older
  deployment left there can be paid twice (`VestingContract.CancelledTwice`; input `CancelledTwiceExample`). Without
  such streams both keep what is spare (`CancelStream`, `ClawbackStream`).
- An emergency drain does not look at a pause (`FixedRateRuns.DrainIgnoresPause`; inputs `DrainExamples`).
- A milestone whose product overflows blocks earlier milestones that were not claimed in time
  (`Milestones.EarlyClaimsMatter`; input `EarlyClaimExample`).
- The walk behind the view and the walk behind the claim differ on overflow and before the start
  (`Segments.WalksAgree`; inputs `WalksPartOnOverflow`, `WalksBeforeStart`), though never on a stored stream
  (`VestingContract.VestingDrips.ClaimableVariableAmount`).
- The fuzz harnesses assert signs and remainders that hold on stored schedules but not on all their inputs
  (`FuzzMirrors.SplitSigns`, `SplitFitsRemainder`, `ClaimSigns`, `ClaimFitsRemainder`; inputs `NegativeRateSplit`,
  `OverpayingSplit`, `NegativeClaims`, `OverpayingClaim`).
- A version can be lost under concurrent writes, which the recorder's comment calls safe
  (`VersionRecorder.ScheduleVersions.InsertIfAbsent`; `VersionRecorder.SecondOfTwoIsLost`).
- A success of a call admitted before an opening closes the breaker within the window
  (`CircuitBreakers.AdmittedIffClosed`, `WindowIsRespected`; input `LateSuccessCloses`).
- A WebSocket callback that is put on the local bus after its connection was closed stays there for ever
  (`WsStreams.LateSubscriberStays`, `NothingEndsIt`; input `LateSubscriberExample`).
- Half open is described as a probe, but admits any number of calls (`CircuitBreakers.HalfOpenAdmitsMany`, for
  every half-open history).

Where the code and its documentation disagree, or a file holds two versions of a function, the model follows:

- src/contract.rs:813-936 for `claim_vested` (the text around it is left over from other versions), 727-796 for
  pause and resume (docs/flows.md says a resume shifts cliff and end; these lines shift all five ledgers), and
  1927-1954 for `claimable_amount`. In these lines a claim raises the version by two.
- src/contract.rs:575-600 for milestone claims; the lines that should store the new index and total are missing,
  so the fields are stored as src/types.rs:107-115 names them.
- src/contract.rs:812-826, 1171 and 1416 look up streams by id through a getter that src/storage.rs does not define;
  it is taken to find id 0 under either key. The getter without an id, src/storage.rs:116-136, looks under the legacy
  key alone: `VestingContract` keeps which recipients' stream 0 is still there, and a deployment may start with such
  streams, and with streams under other ids. `FixedRateRuns` is about the operations themselves, in any order: with
  this storage at most one pause or resume of a stream ever succeeds. `ClaimVested` takes the enumeration that
  `StreamIds.StreamStore.GetStreamIds` returns as an argument, and creation the id that `NextStreamId` returns.
- src/contract.rs:494-548 for the creation of milestone streams, whose head is missing; it is taken to refuse a
  recipient who has one.
- `MAX_MILESTONES` is not defined in the repository; it is a parameter.

## Model

| member | source | states |
|---|---|---|
| `FixedRate.VestedBounds` | src/contract.rs:849-864 | On every stored schedule the amount claimed never exceeds what has vested, nor that the deposit; what a claim computes from the last claim on is what has vested less what was claimed; before the cliff nothing was claimed. |
| `FixedRate.SettlementsAgree` | src/contract.rs:1200-1219 | Cancel, clawback, emergency drain and the claim at the end pay out the same sum, the unclaimed part; neither share of a cancel is negative, so the floor at zero never applies; before the cliff the sponsor gets the whole deposit back. |
| `FixedRate.ClaimKeepsReachable` | src/contract.rs:914-926 | A claim pays something, takes exactly that off what the stream still owes, leaves a sound record, and ends the stream only when it paid all the rest. |
| `FixedRate.ClaimMeans` | src/contract.rs:866-927 | A claim that succeeds takes what has vested and is unclaimed; the fee is its rounded-down part, the rest the recipient's; the record shows the new last claim and totals, two versions on, or ends from the last ledger on. |
| `FixedRate.ResumeKeepsReachable` | src/contract.rs:778-789 | A resume keeps the deposit that the record implies if and only if the shifted end still fits in u32; otherwise it loses the rate times the overshoot. |
| `FixedRate.PauseKeepsReachable` | src/contract.rs:744-749 | A pause keeps the record sound and what the stream owes. |
| `FixedRateRuns.StepConserves` | src/contract.rs:813-936 | Any one operation moves value only between what is paid, what is still owed and what a saturated resume loses, none of them negative. |
| `FixedRateRuns.RunConserves` | src/contract.rs:727-1257 | Over every run of claims, pauses, resumes and settlements at non-decreasing ledgers, and over every prefix of one: paid plus still owed plus lost is what was owed at the start. |
| `FixedRateRuns.LossIsSaturation` | src/contract.rs:779-789 | A run loses something if and only if one of its resumes would move the end past the last u32 ledger. |
| `FixedRateRuns.DepositIsPaidOut` | README.md:159 | From creation on, recipient, treasury and sponsor together never receive more than rate times duration, and once the stream has ended, in whatever way, they have received exactly that if and only if no resume saturated. |
| `FixedRateRuns.ClaimMatchesTwin` | src/contract.rs:836-864 | The cliff test, the test for nothing to claim and the amount of a claim agree with those of the never-paused twin at its own clock, as long as the version counter is not used up. |
| `FixedRateRuns.StepMatchesTwin` | src/contract.rs:776-790 | Every operation but a drain leaves the stream and its never-paused twin in step and pays the same to the same accounts. |
| `FixedRateRuns.PausesOnlyShiftTime` | src/contract.rs:727-796 | Over every run without a drain and without saturation, the never-paused twin, at the effective ledger less all earlier pauses, makes the same successful claims and settlements with the same payouts, and ends when the stream ends. |
| `FixedRateRuns.CreatedIsItsTwin` | src/contract.rs:340-355 | A newly created stream is its own twin, so that from creation on it pays over every such run what it would pay without its pauses. |
| `FixedRateRuns.DrainIgnoresPause` | src/contract.rs:1534-1542 | An emergency drain goes by the ledger alone. While the drain ledger fits in u32, it and the twin's drain are both allowed or both refused if and only if it is not the case that the stream was paused before its drain ledger and that ledger has passed since; when the drain ledger saturates, they part exactly at the last u32 ledger, if there was any pause at all. |
| `FixedRateRuns.DrainExamples` | src/contract.rs:1534-1542 | One input for each of the two cases in which the drains part. |
| `ClaimFees.FeeSplit` | src/contract.rs:874-886 | Splitting an amount into k claims never raises the fee and lowers it by less than k tokens. |
| `ClaimFees.TreasuryReceivesItsShare` | src/contract.rs:874-914 | Over every run at one fee rate, the treasury's income is at most the fee on all that was claimed and short of it by less than the number of claims. |
| `VestingBooks.PayOutSucceeds` | src/contract.rs:893-912 | A payout goes through exactly when it is empty, or the token allows it and the vault holds the sum; the vault then holds that much less. |
| `VestingBooks.PayOutMoves` | src/contract.rs:893-912 | A payout raises the recipient's, the treasury's and the sponsor's balance by their shares, lowers the vault's by the sum, and changes no other balance in any token. |
| `VestingBooks.PayOutReaches` | src/contract.rs:893-912 | Three different parties each gain exactly their own share, and the vault loses the three. |
| `TokenBook.TransferPays` | src/contract.rs:893-912 | A transfer takes the amount from one account and adds it to the other, and changes no other balance. |
| `VestingBooks.ClaimEachKeepsSurplus` | src/contract.rs:829-930 | A claim over any list of streams of any tokens leaves, in every token, the difference between what the vault holds and what it owes to fixed-rate streams as it was. |
| `VestingClaims.ClaimEachIsPerStream` | src/contract.rs:829-930 | A claim over distinct ids gives each stream the effect of a claim of that stream alone, leaves all others as they were, and returns the sum of the amounts. |
| `VestingClaims.ClaimEachPays` | src/contract.rs:866-912 | After a claim over distinct ids, in every token, the recipient has gained the net amounts of the streams of that token, the treasury their fees, the account has lost both, and no other balance has changed; a recipient who is the treasury has gained both. |
| `VestingClaims.PaidOneIsMoved` | src/contract.rs:866-912 | For a single stream that is the payout to its recipient and the treasury. |
| `VestingClaims.ClaimEachSucceedsIff` | src/contract.rs:829-912 | A claim over distinct ids succeeds if and only if no stream is in its way (each is absent, paused, before its cliff, or its version, fee, treasury and token allow the claim), the account holds what is due in each token, the sum fits in i128, and, if one id is given, something is due of it. |
| `VestingBooks.RemovingIdZero` | src/contract.rs:1244-1245 | A settlement removes the stream with id 0 whichever stream it paid: the paid stream is gone if and only if its id is 0, and the surplus changes by what the removed stream owed less what the paid one owed. |
| `VestingBooks.SurplusKeptIff` | src/contract.rs:1244-1245 | A settlement keeps the surplus of every token if and only if stream 0 owes what the paid stream owes in the same token, or neither owes anything. |
| `VestingClaims.ClaimEachGoesThrough` | src/contract.rs:829-912 | A claim of any streams fails in a transfer only when one of their tokens refuses, or the vault holds less of one of them than it owes. |
| `Accounts.SpareCovers` | src/contract.rs:893-912 | As long as what the one account holds in a token, less all that it owes there to fixed-rate, variable and milestone streams, is not negative, it holds what any one stream of any kind is still owed. |
| `Accounts.ClaimsAreCovered` | src/contract.rs:893-912 | With nothing missing in its tokens, and none of them refusing, a claim of any fixed-rate streams does not fail in a transfer. |
| `Accounts.SettlementsAreCovered` | src/contract.rs:1222-1242 | With nothing missing in its token, the account holds the sum of any cancel, clawback or drain of a stream. |
| `Accounts.VariableClaimIsCovered` | src/contract.rs:1122-1136 | With nothing missing in its token, the account holds what any variable claim pays. |
| `Accounts.MilestoneClaimIsCovered` | src/contract.rs:601-611 | With nothing missing in its token, the account holds what any milestone claim pays. |
| `Accounts.FixedRateOnly` | src/contract.rs:813-936 | What the fixed-rate entry points keep beyond the fixed-rate debts they keep beyond all debts, and conversely. |
| `Accounts.VariableOnly` | src/contract.rs:1044-1072 | A transfer of as much as a variable stream is owed more or less keeps what the account holds beyond all debts, in every token. |
| `Accounts.MilestonesOnly` | src/contract.rs:601-611 | A transfer of as much as a milestone stream is owed more or less keeps what the account holds beyond all debts, in every token. |
| `Accounts.CreationFallsShort` | src/contract.rs:311-365 | A fixed-rate creation leaves the account short by what it promises beyond its deposit less the fee, but for what a forgotten stream 0 was owed; it keeps what is spare if and only if that one was owed just as much in the same token. |
| `VestingContract.VestingDrips.CreateVestingStream` | src/contract.rs:219-381 | Creation succeeds exactly under the stated conditions, stores under id 0, whichever id it allocated, a record of the given rate whose cliff and end lie the given durations after the present ledger, and moves the deposit, the scaled-down product, to the account and the fee to the treasury. |
| `FixedAmounts.ValidateTerms` | src/contract.rs:245-322 | Creation accepts exactly the admissible terms; the record, field by field, and the deposit, the rate times the duration divided by RATE_DECIMALS; each error names a real fault. |
| `VestingContract.CreatedUnfunded` | src/contract.rs:311-365 | In every state a successful creation leaves the account short by what it promises beyond its deposit less the fee, but for a forgotten stream 0. |
| `VestingContract.UnfundedExample` | src/contract.rs:311-365 | An input: the first stream of a deployment is created, and at its end its claim fails although the token does not refuse. |
| `FixedAmounts.Claimable` | src/contract.rs:850-864 | Both formulas of the claim amount come to what has vested less what was claimed, and no checked operation fails. |
| `FixedAmounts.SplitFee` | src/contract.rs:874-886 | Fee and net amount of a claim; refused exactly when the scaled amount does not fit in i128. |
| `FixedAmounts.ClaimSchedule` | src/contract.rs:836-927 | One pass of the claim loop, with its two version increments, has the effect stated through what has vested, and removes the stream exactly from its last ledger on. |
| `VestingContract.VestingDrips.ClaimVested` | src/contract.rs:813-936 | A claim of one stream or of all: exactly when it succeeds, who gains what in each token, the sum returned, the records it leaves and all others unchanged, the errors that undo everything, what the account holds beyond all debts kept, and when the legacy entry moves. |
| `VestingContract.VestingDrips.ClaimableAmount` | src/contract.rs:1927-1954 | The view returns what has vested less what was claimed of a stream under the legacy key, or 0 when there is none there, it is paused or before its cliff; it never overflows. |
| `VestingContract.VestingDrips.PauseStream` | src/contract.rs:727-752 | A pause of the stream under the legacy key succeeds if and only if the sponsor asks, it is not paused and its version can be raised; it dates the pause, raises the version and moves the stream to id 0; what is beyond all debts is kept. |
| `VestingContract.VestingDrips.ResumeStream` | src/contract.rs:762-796 | The whole new state of a resume of the stream under the legacy key, which moves to id 0, each refusal, and what a saturated one leaves in the account that is nobody's. |
| `FixedAmounts.ResumeSchedule` | src/contract.rs:772-790 | A resume succeeds if and only if the stream is paused and its version can be raised; it moves all five ledgers by the length of the pause, as far as u32 reaches, and leaves the rest of the record. |
| `FixedAmounts.CancelShares` | src/contract.rs:1182-1219 | The two shares of a cancel: all that has vested and is unclaimed to the recipient, all that has not vested to the sponsor; no ledger subtraction underflows. |
| `VestingContract.VestingDrips.CancelStream` | src/contract.rs:1158-1257 | A cancel: every refusal; the recipient gains what has vested and is unclaimed, the sponsor what has not vested, and nobody else anything; stream 0 removed. What is beyond all debts is kept if and only if stream 0 was owed what the paid one was: always for id 0, and always when no older deployment left a stream under that id. |
| `VestingContract.CancelledTwice` | src/contract.rs:1244-1245 | A cancel of a stream with an id other than 0, which an older deployment left, succeeds again when it is repeated at once, and takes its unclaimed part out of the account again, in every state whose account holds that part twice. |
| `VestingContract.CancelledTwiceExample` | src/contract.rs:1244-1245 | An input, from the deployment on: two cancels empty the account, and the stream is still there and owed as before. |
| `VestingContract.VestingDrips.ClawbackStream` | src/contract.rs:1407-1460 | A clawback: every refusal, all unclaimed tokens to the sponsor, stream 0 removed. What is beyond all debts is kept if and only if stream 0 was owed what the paid one was. |
| `VestingContract.VestingDrips.EmergencyDrain` | src/contract.rs:1519-1563 | An emergency drain of the stream under the legacy key: every refusal, all unclaimed tokens to the sponsor, the stream removed, what is beyond all debts kept. |
| `FixedAmounts.DrainAmount` | src/contract.rs:1532-1545 | A drain is refused before the end and before the drain ledger, and returns the deposit less the claims. |
| `VestingContract.PausedForGood` | src/contract.rs:727-796 | After a pause, at any later ledger, a resume and a drain of the stream find nothing, the view shows 0 and a claim has nothing to claim: the pause has written the record to where the getter does not look. |
| `VestingContract.SaturatedResumeExample` | src/contract.rs:776-790 | An input, from a deployment that finds a paused stream of 45 tokens: its resume saturates, the clawback returns 35, and 10 stay in the account. |
| `FuzzMirrors.CancelMirrorAgrees` | fuzz/fuzz_targets/cancel_stream.rs:52-111 | On every stored schedule the harness splits a cancel exactly as the contract does. |
| `FuzzMirrors.ClaimMirrorAgrees` | fuzz/fuzz_targets/claim_vested.rs:47-107 | On every stored schedule the harness computes the amount that a claim pays and refuses for the same reason. |
| `FuzzMirrors.SplitSigns` | fuzz/fuzz_targets/cancel_stream.rs:152-161 | On arbitrary inputs the harness's claim that no share is negative holds if and only if the rate is not negative or no ledger is paid for. |
| `FuzzMirrors.NegativeRateSplit` | fuzz/fuzz_targets/cancel_stream.rs:152-161 | An input on which that claim fails. |
| `FuzzMirrors.SplitFitsRemainder` | fuzz/fuzz_targets/cancel_stream.rs:173-194 | The harness's assertion that a split pays no more than is left, wherever it is made, holds if and only if the amount claimed leaves the ledgers that the split pays for. |
| `FuzzMirrors.OverpayingSplit` | fuzz/fuzz_targets/cancel_stream.rs:173-194 | An input on which the assertion about the remainder fails. |
| `FuzzMirrors.ClaimFitsRemainder` | fuzz/fuzz_targets/claim_vested.rs:152-174 | The claim harness's assertion that no more than the remainder is claimed holds if and only if the stream is past its end or the amount claimed leaves the ledgers that the claim pays for. |
| `FuzzMirrors.OverpayingClaim` | fuzz/fuzz_targets/claim_vested.rs:152-174 | An input on which that assertion fails. |
| `FuzzMirrors.ClaimSigns` | fuzz/fuzz_targets/claim_vested.rs:143-181 | On arbitrary inputs the claim harness's assertions that an amount is positive, and that it is not negative, hold together, if and only if something is left at the end or the rate is positive before it. |
| `FuzzMirrors.NegativeClaims` | fuzz/fuzz_targets/claim_vested.rs:143-181 | Inputs on which these assertions fail, before the end and at it. |
| `Segments.StepFits` | src/contract.rs:1999-2004 | Every product and every partial sum of a walk lies between zero and the whole release. |
| `Segments.ComputeChecked` | src/contract.rs:1984-2013 | The first walk returns the ledger-by-ledger sum of the rates from the later of `from` and the start, and aborts if and only if that sum does not fit in i128. |
| `Segments.ComputeSaturating` | src/contract.rs:2026-2054 | The second walk, with its skipped segments and early break, returns the ledger-by-ledger sum, capped at the largest i128. |
| `Segments.WalksAgree` | src/contract.rs:1984-2054 | Wherever both walks may be called, they return the same if and only if there are no segments; or, on an empty span or one that does not begin before the start, the release fits in i128; or, on any other span, the release after the start is the largest i128. |
| `Segments.WalksPartOnOverflow` | src/contract.rs:1984-2054 | An input on a span from the start: one walk aborts and the other saturates. |
| `Segments.WalksBeforeStart` | src/contract.rs:1984-2054 | Inputs on a span that begins before the start: one on which the walks part and one on which they meet. |
| `VariableStream.PriceSegments` | src/contract.rs:1010-1040 | Creation accepts a segment list if and only if it is ascending from the start, has positive rates and a release that fits; the deposit is that release, ledger by ledger, and each error names a real fault. |
| `VariableStream.ReleaseFacts` | src/contract.rs:1107-1140 | All that a stored stream has released, and every part of it, fits in its deposit, so that the unclaimed part is never negative. |
| `VariableStream.ClaimKeepsReachable` | src/contract.rs:1138-1148 | A variable claim pays something, at most what is owed, takes exactly that off the debt and leaves a sound record, or ends the stream having paid all the rest. |
| `VariableStream.TimingDoesNotMatter` | src/contract.rs:1107-1141 | For every sequence of claims at non-decreasing ledgers the total paid is the sum of the rates up to the last of them, or nothing before the cliff. |
| `VariableStream.WholeDepositIsClaimed` | src/contract.rs:1107-1116 | Once a claim comes at the end or later, the claims have paid exactly the deposit: the final remainder agrees with the walk. |
| `VestingContract.VestingDrips.CreateVariableRateStream` | src/contract.rs:979-1076 | Creation succeeds exactly under the stated conditions, stores the record field by field and moves the deposit; what the account holds beyond all debts of all kinds is kept in every token. |
| `VestingContract.VestingDrips.ClaimVariableVested` | src/contract.rs:1091-1153 | A claim pays the release since the last one; it fails in the transfer exactly when the token refuses or the account holds less, and keeps what the account holds beyond all debts of all kinds. |
| `VariableStream.ClaimableNow` | src/contract.rs:1107-1116 | The remainder branch and the walk give the same release, which is zero exactly at the ledger of the last claim. |
| `VestingContract.VestingDrips.ClaimableVariableAmount` | src/contract.rs:1957-1977 | The view returns exactly what a claim would pay now, or 0 when a claim would be refused. |
| `Milestones.ValidateMilestones` | src/contract.rs:494-522 | A list is accepted if and only if it is not empty nor too long, its ledgers ascend from above 0, and its shares sum to 10000. |
| `Milestones.RoundingBound` | src/contract.rs:583-592 | No span of milestones releases more than the deposit; all together fall short of it by less than their number. |
| `Milestones.FrontierSeparates` | src/contract.rs:580-599 | A claim stops exactly between the milestones that are reached and those that are not. |
| `Milestones.SplitDoesNotMatter` | src/contract.rs:575-604 | As long as no product overflows, any split into claims pays the amounts of all milestones the last claim reaches. |
| `Milestones.PaysSomething` | src/contract.rs:575-604 | A sequence of claims pays something if and only if one of them would pay if it were made alone. |
| `Milestones.EarlyClaimsMatter` | src/contract.rs:583-592 | For every sequence of claims: it pays something other than its last claim alone if and only if a product that the last one reaches overflows, while some earlier claim reaches no such product and has something to release. |
| `Milestones.EarlyClaimExample` | src/contract.rs:583-592 | A concrete schedule on which that happens. |
| `Milestones.ReachedMilestones` | src/contract.rs:575-600 | The claim loop returns the amounts of the reached, unclaimed milestones and the index after them, or the overflow if one of their products overflows; the sum itself never does. |
| `Milestones.ClaimKeepsReachable` | src/contract.rs:597-600 | A milestone claim pays something, at most what is owed, takes exactly that off the debt and leaves a sound record. |
| `VestingContract.VestingDrips.ClaimMilestone` | src/contract.rs:569-611 | A milestone claim: every refusal, the tokens moved, and the index and total that the record requires; what the account holds beyond all debts of all kinds is kept. |
| `StreamIds.StreamStore.NextStreamId` | src/storage.rs:202-225 | An allocated id is not live and was never handed out before; allocation fails only when the counter is at the last u32. |
| `StreamIds.StreamStore.SetScheduleById` | src/storage.rs:156-178 | Storing makes that id live, and no other; it moves the legacy entry under id 0 and keeps the counter ahead of every live id but the last u32. |
| `StreamIds.StreamStore.RemoveScheduleById` | src/storage.rs:191-200 | Removal ends that id, in both of its places, and no other. |
| `StreamIds.StreamStore.GetStreamIds` | src/storage.rs:227-255 | The enumeration is strictly ascending and equals the live ids, the legacy entry counted as id 0, except for the last u32, which it cannot reach. |
| `StreamIds.StreamStore.GetSchedule` | src/storage.rs:116-127 | The getter without an id finds a live stream 0 if and only if it has not been written under id 0 since the older deployment: no stream is ever under both keys. |
| `StreamIds.StreamStore.StoredIsNotFound` | src/storage.rs:116-154 | Whatever was there before, a stream 0 that has just been stored exists and is not found by the getter. |
| `StreamIds.StreamStore.Create` | src/contract.rs:324-365 | Creation stores under id 0 whichever id it returns: the id it returns names a live stream if and only if the recipient had no counter and no legacy entry before; a live stream 0 is replaced. |
| `RpcPools.BoundedWait` | backend/src/rpcPool.ts:125-149 | Any N successive picks of an N-node pool return every node that is healthy or past its window at each of them, whatever calls, reports and checks come in between. |
| `RpcPools.PickApproaches` | backend/src/rpcPool.ts:131-146 | A pick returns a given node that is healthy or past its window, or comes strictly nearer to it in the rotation. |
| `RpcPools.PickMeans` | backend/src/rpcPool.ts:125-149 | A pick finds nothing if and only if every node is unhealthy and in its window; otherwise it finds the first one in turn that is healthy or past its window, which is then healthy, with its counter at 0 if it was not, and the index stands right behind it. |
| `RpcPools.QuarantineHolds` | backend/src/rpcPool.ts:136-146 | In every run without a success of a quarantined node, no pick before the end of its window returns it, and further failures do not move that end. |
| `RpcPools.ThirdFailureQuarantines` | backend/src/rpcPool.ts:174-191 | A report or check turns a node unhealthy exactly on its third failure in a row, for sixty seconds from the time of that failure. |
| `RpcPools.PickFailsIffNoneHealthy` | backend/src/rpcPool.ts:210-214 | A pick finds no node if and only if the healthy count at that time is 0. |
| `RpcPools.Step` | backend/src/rpcPool.ts:154-191 | In every reachable state a node is unhealthy if and only if its counter is at least three, and the index stays in range. |
| `RpcPools.CounterIsStreak` | backend/src/rpcPool.ts:154-191 | In every run a node's counter is the number of its failures since its last success, passed check or readmission, and it is unhealthy if and only if these are at least three. |
| `RpcPools.CounterFromStart` | backend/src/rpcPool.ts:154-191 | From the start of a pool on, while nothing clears a node, its counter is the number of all its failures so far. |
| `RpcPools.RpcPool.PickNode` | backend/src/rpcPool.ts:125-149 | The rotation loop does that: nothing exactly when every node is unhealthy and in its window, and otherwise the first node in turn that is not, readmitted if it was unhealthy. |
| `RpcPools.RpcPool.CheckNode` | backend/src/rpcPool.ts:260-326 | A health check that passes clears its node; one that fails counts against it, and the third in a row starts a minute's window at the check's start; no other node changes. |
| `RpcPools.RpcPool.ReportFailure` | backend/src/rpcPool.ts:174-191 | A failed call counts against the first node with that url, and the third in a row starts a minute's window; no other node changes. |
| `CircuitBreakers.StaysBelowThreshold` | backend/src/horizonCircuitBreaker.ts:109-121 | The failures since the last success, opening or reset stay below the threshold, in every interleaving of starts and completions. |
| `CircuitBreakers.OpensOnThreshold` | backend/src/horizonCircuitBreaker.ts:112-115 | A failure opens the breaker if and only if it is the threshold-th in a row or arrives while half open. |
| `CircuitBreakers.CountIsFailures` | backend/src/horizonCircuitBreaker.ts:109-121 | The count is the number of failures logged after the last success, reset or opening. |
| `CircuitBreakers.OpensOnCount` | backend/src/horizonCircuitBreaker.ts:109-121 | A failure opens the breaker if and only if it has been found half open since the last success, reset or opening, or the failures logged since then, with this one, are as many as the threshold. |
| `CircuitBreakers.WindowIsRespected` | backend/src/horizonCircuitBreaker.ts:63-88 | No call is admitted while the window of an opening runs, unless something has closed the breaker since, and what closed it first was a reset or the success of a call admitted before the opening. |
| `CircuitBreakers.OpenUnlessClosed` | backend/src/horizonCircuitBreaker.ts:63-81 | At any time inside the window of an opening the breaker is not open if and only if something has closed it since and nothing has opened it again. |
| `CircuitBreakers.AdmittedIffClosed` | backend/src/horizonCircuitBreaker.ts:63-88 | Inside the window of an opening a new call can be admitted if and only if something has closed the breaker since and nothing has opened it again. |
| `CircuitBreakers.LateSuccessCloses` | backend/src/horizonCircuitBreaker.ts:102-107 | A concrete history in which the late success of a call admitted before the opening lets another call in during the window. |
| `CircuitBreakers.HalfOpenAdmitsMany` | backend/src/horizonCircuitBreaker.ts:83-88 | Half open admits any number of new calls, all under way together, not a single probe. |
| `CircuitBreakers.CircuitBreaker.Start` | backend/src/horizonCircuitBreaker.ts:83-88 | A call is refused exactly while the breaker is open and its window runs; otherwise the history stays legal with one more admission and the call is under way. |
| `CircuitBreakers.CircuitBreaker.OnFailure` | backend/src/horizonCircuitBreaker.ts:109-121 | The fields stay the summary of a legal history: a failure adds one to the counter, or opens the breaker, dates it and sets the counter to 0, and it opens it exactly when half open or at the threshold. |
| `StreamStatus.TablesAgree` | backend/migrations/008_terminal_event_handlers.ts:76-103 | The service's table and the trigger's check allow the same transitions, eight real changes; the first migration's check differs exactly on clawbacks; every real change raises the rank. |
| `StreamStatus.TerminalMeansStuck` | backend/src/streamStatusService.ts:90-109 | The three terminal states are exactly those that no transition leaves. |
| `StreamStatus.TrailIsShort` | backend/migrations/006_stream_status_state_machine.ts:165-195 | An audit trail that replays from one status to another has at most three rows, and none if it starts in a terminal state. |
| `StreamStatus.RowsLinkUp` | backend/migrations/006_stream_status_state_machine.ts:171-182 | Each row starts where the one before it ended, with strictly rising ranks. |
| `StreamStatus.ChangesAreUnique` | backend/src/streamStatusService.ts:183-197 | No trail has the same change twice, so that the query for the latest row of a change has one answer whatever the time stamps. |
| `StreamStatus.StatusTables.UpdateStatus` | backend/migrations/006_stream_status_state_machine.ts:165-195 | The trigger refuses a change or records it in one new row and dates it; the trail replays to the new status. |
| `StreamStatus.StatusTables.TransitionStreamStatus` | backend/src/streamStatusService.ts:124-209 | The service: unknown stream, identity, invalid change, and a valid change with exactly one new audit row that carries the event data. |
| `StreamStatus.StatusTables.LatestMatch` | backend/src/streamStatusService.ts:183-197 | The row that receives the event data is the only one of its change. |
| `StreamStatus.StatusTables.ExpireStreams` | backend/src/streamStatusService.ts:221-233 | The expiry job changes exactly the active and pre-cliff rows whose end lies before the current ledger, dates each and adds one audit row, counts them, and leaves all others alone. |
| `VersionRecorder.InsertKeepsGapless` | backend/src/schedule-version-recorder.js:46-57 | An insert of a version at most one past the highest keeps every recipient's versions at 1 to k, and adds a row exactly when it is that next one. |
| `VersionRecorder.MaxIsCount` | backend/src/schedule-version-recorder.js:47-51 | The highest version of a recipient is the number of its versions. |
| `VersionRecorder.VersionIsPlace` | backend/src/schedule-version-recorder.js:46-57 | In every table that the recorder writes, a row's version is its place among the rows of its recipient. |
| `VersionRecorder.SecondOfTwoIsLost` | backend/src/schedule-version-recorder.js:46-57 | When two recorders of one recipient both read before either inserts, the second leaves no trace. |
| `VersionRecorder.ScheduleVersions.ReadNext` | backend/src/schedule-version-recorder.js:47-51 | The read step of one recorder, with any number of others under way: it means to write one more than the number of the recipient's rows. |
| `VersionRecorder.ScheduleVersions.InsertIfAbsent` | backend/src/schedule-version-recorder.js:52-57 | The insert step: the table stays gapless, written rows never change, and the recorder's row is added if and only if no other of its recipient was added since it read. |
| `WsStreams.Server.Connect` | backend/src/wsStreams.ts:306-317 | A connection is admitted if and only if its address has fewer open ones than the limit; a refusal leaves no trace; the counts stay exact, positive and within the limit. |
| `WsStreams.Server.Cleanup` | backend/src/wsStreams.ts:326-353 | The first cleanup closes the connection and takes it off the count; every later one changes nothing, not even a callback subscribed after the close. |
| `WsStreams.Server.Heartbeat` | backend/src/wsStreams.ts:448-462 | A tick ends a connection that is gone or has missed its third heartbeat in a row, and keeps the counts exact. |
| `WsStreams.Server.Pong` | backend/src/wsStreams.ts:483-486 | A pong sets the missed heartbeats to 0 and changes nothing else. |
| `WsStreams.Server.DecrementIpCount` | backend/src/wsStreams.ts:204-211 | The address counts one connection less, unless it had none, and no other address counts differently; no address is left with a count of zero, so that it undoes an increment. |
| `WsStreams.SilenceEndsConnection` | backend/src/wsStreams.ts:453-459 | A connection with no missed heartbeat survives exactly two unanswered ones. |
| `WsStreams.PongThenSilence` | backend/src/wsStreams.ts:453-486 | Whatever came before, as long as the connection is open: after a pong it survives exactly two more unanswered heartbeats. |
| `WsStreams.MissedSincePong` | backend/src/wsStreams.ts:453-486 | While a connection is open its missed heartbeats are those that came since its last pong. |
| `WsStreams.AnsweringKeepsOpen` | backend/src/wsStreams.ts:448-486 | A connection with a pong between any two heartbeats is never closed by a heartbeat. |
| `WsStreams.LateSubscriberStays` | backend/src/wsStreams.ts:410-446 | A closed connection keeps its callback on the bus if and only if it subscribed at a time when it was already closed. |
| `WsStreams.NothingEndsIt` | backend/src/wsStreams.ts:326-353 | Once a connection is closed and its callback on the bus, no cleanup, tick or pong, in any order, takes it off again. |
| `WsStreams.LocalBus.Publish` | backend/src/wsStreams.ts:137-146 | The buffer holds the latest hundred messages of a recipient, newest first. |
| `WsStreams.LocalBus.Replay` | backend/src/wsStreams.ts:411-416 | A replay sends the last hundred messages in the order in which they were published. |

## Left out

- `drain_expired_stream` and `get_stats`: they repeat the divided deposit of creation.
- Authorisation, admin guards, upgrade and the reason of a clawback: single guards; whether the allowlist admits a recipient and the token answers are arguments of creation. Callers are outside accounts, because the vault never signs for itself.
- The reentrancy lock and the inside of token contracts: a transfer is one atomic move that happens or fails.
- `create_batch_streams`, `migrate_schedule` and recipient transfer: two spliced bodies, a field write and a re-keying.
- Events, storage lifetimes and schema stamps: no effect on amounts or states.
- The skip at the start of `checkNode` for a node still in quarantine: the model also covers outcomes of checks that would have been skipped.
- A limit that does not parse as a number (`parseInt` giving NaN) in the breaker and the connection count.
- Redis, timers and sockets: a connection is its admission, its subscription, its ticks and its cleanup.
- The insertion of a stream row by the indexer: any initial status is allowed.
- Indexer, backfill, webhooks, caches, HTTP routing, frontend and infrastructure: network, SQL and user interface.
- FixedRateRuns.PausesOnlyShiftTime: leaves out runs with an emergency drain, because a drain does not follow the shifted clock; FixedRateRuns.DrainIgnoresPause says exactly when it and the twin's drain part.
- VariableStream.PriceSegments: does not say which of two faults in one list is reported, only that the one reported is there.
