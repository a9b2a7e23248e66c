# Verified model of the money-safety kernel

A Dafny model of the parts of `crates/core` (and the event dedup of `crates/module-copy`) that decide whether the
bot may move money, how much, and how it accounts for what it moved. Each component is modelled in the form its code
has. Code that changes state step by step is a class or a method with loops, proved equal to a specification function
on values. The properties are then proved about that function, over every run.

| file | component |
|---|---|
| `Common.dfy` | option type, white space, and small facts used throughout |
| `Claims.dfy` | the in-memory claim store and the guard a claim hands out |
| `ClaimRuns.dfy` | every run of the claim store: epochs, fencing, lease windows |
| `Broadcasts.dfy` | claim, fence, intent, broadcast and release composed, with crashes and store outages |
| `RedisClaims.dfy` | the four Lua scripts over a hash with an expiry, and their refinement of the in-memory store |
| `Positions.dfy` | the incremental position book, the replay from fills, and when they agree |
| `Amm.dfy` | constant-product and bonding-curve quotes over u64 and u128 |
| `RateLimiter.dfy` | the token bucket with idle sweep and hard cap |
| `Orders.dfy` | the order lifecycle, and the id map, key index and FIFO under eviction |
| `Flags.dfy` | runtime flags replicated through one store |
| `Dedup.dfy` | the bounded set, the two-layer first-arrival check, and the keys |
| `EntrySizing.dfy` | preflight, entry gates, sizing and venue checks of the risk engine |
| `Cooldowns.dfy` | pruned cooldown maps against the full history |

Clocks, the store's reachability and the shared layer's answers are parameters of the steps. A region under one lock,
and one Lua script, is one atomic step. The fence and the broadcast that follows it are two steps. Money amounts and
seconds are reals, other times are integer milliseconds, and machine integers are bounded explicitly where the code
can reach the bound. `dafny verify dfyconfig.toml` checks the whole project.

## Where the code does less than it may seem to

Each of these has a lemma with a concrete input or run, next to the exact condition under which the property does
hold.

- A module decision that changes nothing on the replica that makes it is neither stamped nor published, so that
  replica's next sync may undo it by an older row (`Flags.UnchangedDecisionIsOverridden`).
  `Flags.DecisionSurvivesIff` says exactly which decisions survive.
- A guard that failed `verify` can verify again if the clock steps back (`ClaimRuns.BackwardClockRevives`). Losing a
  claim is final exactly on clocks that do not step back at all (`ClaimRuns.AlwaysStaysDeadIff`).
- Fence and broadcast are not atomic. A worker that stalls between them until its lease has ended is overtaken by the
  guard that took over, from every reachable state (`Broadcasts.StalledBroadcastFollowsTakeover`). Its broadcast comes
  before those of later guards, whatever happens, exactly when it is sent before the lease end
  (`Broadcasts.SendPrecedesLaterGuardsIff`).
- Journal and hand-off follow what an attempt reports. One that sends and then fails has its intent abandoned, and its
  guard released with the outcome unproven (`Broadcasts.FailureAfterSendIsReleased`). `Broadcasts.IntentBeforeBroadcast`
  and `Broadcasts.ReleaseFollowsReports` give the exact conditions on reports.
- A handed-off Redis row blocks for the grace of the *claimer* and is retained for the grace of the *recorder*. A
  claimer with a grace beyond the retention acquires early (`RedisClaims.LongGraceOutlivesTheRow`); the row outlives
  the window exactly for claimers whose grace is within the retention plus one millisecond
  (`RedisClaims.HandOffOutlivesWindowIff`).
- `constant_product_in` with a fee can quote one unit too little (`Amm.FeeInCanMissTheRequest`). It buys every request
  in range exactly when the fee is zero (`Amm.AlwaysBuysBackIff`). `Amm.ToppedUpInBuysBack` says how much to add.
- A fee above its denominator wraps in the release profile (`Amm.FeeAboveOneDrains`). Quoted swaps keep the product
  and never drain a pool exactly when the fee is at most its denominator (`Amm.AlwaysSafeIff`).
- The limiter reads the clock before it takes the lock, so readings may reach the map late. A late reading moves a
  bucket's stamp back and the same interval is credited again. However small the lateness, readings within half a
  minute can then get any number of requests through (`RateLimiter.LateReadingsBeatTheRate`). The plain rate bounds
  every window exactly when no reading is late (`RateLimiter.AlwaysWithinRateIff`). What holds in any order is
  `RateLimiter.WindowBound`, and up to 540 s of lateness the tighter `RateLimiter.OwnWindowBound`. The sweep is
  invisible exactly while readings are at most 540 s late (`RateLimiter.SweepIsInvisibleIff`,
  `RateLimiter.LateReadingsShowTheSweep`).
- The position book and the replay count an over-sell differently: the book keeps the whole proceeds, the replay the
  filled share (`Positions.OverSellDiffers`). `Positions.BookAgreesWithReplayIff` gives the exact condition on each
  fill.
- Two namespaces share a Redis key when one, up to its separator, begins the other
  (`Dedup.ColonNamespacesCollide`), and only then (`Dedup.NamespacesShareAKeyIff`). Colon-free ones never do
  (`Dedup.RedisKeyIsInjective`).
- A colon inside a part of a copy event can make two events share a key (`Dedup.ColonPartsCollide`). An event shares
  its key exactly when its trimmed parts contain a colon with no white space beside it (`Dedup.SharesKeyIff`).
- The entry decision is monotone in the oracle for every process whose positions come from fills
  (`EntrySizing.MonotoneForSoundBooks`). Only a malformed stored position can make the local exposure negative. Then a
  tenant may be refused at a lower durable exposure and admitted at a higher one
  (`EntrySizing.NegativeExposureAdmitsLess`); `EntrySizing.MonotoneInTheOracle` gives the exact condition.

## Model

| member | source | states |
|---|---|---|
| Claims.MemoryClaimStore.constructor | crates/core/src/ownership.rs:836-980 | a new store has no rows |
| Claims.MemoryClaimStore.Claim | crates/core/src/ownership.rs:836-923 | the whole new map and the decision are those of `ClaimStep`, for a fresh id, a takeover, a re-acquisition and a rejection |
| Claims.MemoryClaimStore.Renew | crates/core/src/ownership.rs:925-943 | the whole new map and the answer are those of `RenewStep` |
| Claims.MemoryClaimStore.Verify | crates/core/src/ownership.rs:945-958 | true exactly for the claimed holder of the current epoch before the lease end |
| Claims.MemoryClaimStore.Release | crates/core/src/ownership.rs:960-980 | the whole new map and the answer are those of `ReleaseStep`; an expired holder may still release |
| Claims.RegistryContext | crates/core/src/ownership.rs:240-256 | the owner reaches the store, a lease of at least 10 ms and a grace of at least one second as they are, shorter ones as those floors |
| Claims.ClaimGuard.constructor | crates/core/src/ownership.rs:274-359 | a fresh guard carries the issued claim, no renewals, not done |
| Claims.ClaimGuard.Fence | crates/core/src/ownership.rs:428-478 | passes only when the store answered and verified; an unreachable store fails closed |
| Claims.ClaimGuard.Renew | crates/core/src/ownership.rs:481-542 | spends one unit of the renewal budget even when the store fails; on success the guard stamps its own lease end from a second clock reading; at the budget or after completion nothing is asked of the store |
| Claims.ClaimGuard.Transition | crates/core/src/ownership.rs:600-659 | the store and guard after a terminal transition; only the first one reaches the store |
| Claims.ClaimGuard.Complete | crates/core/src/ownership.rs:581-588 | an ambiguous outcome hands off, a determinate one releases |
| Claims.FencePassesIff | crates/core/src/ownership.rs:428-478 | a fence passes exactly when the store answers and holds the guard's owner and epoch, claimed and unexpired; otherwise the error says which failed |
| Claims.RenewsIff | crates/core/src/ownership.rs:481-542 | a guard renews exactly while it is not done, has renewed fewer than 40 times and would pass the fence; store and guard then stamp a full lease from their own readings, and every attempt is counted |
| Claims.TransitionAppliesIff | crates/core/src/ownership.rs:600-659 | a terminal transition is applied exactly once, for the holder of a store that answers, and stamps mode and time |
| ClaimRuns.FirstClaimIsAcquired | crates/core/src/ownership.rs:841-866 | the first claim on an id is acquired as epoch 1, with no takeover and nobody before it |
| ClaimRuns.LaterClaimFollows | crates/core/src/ownership.rs:867-922 | a later claim either names the holder and changes nothing, or takes the next epoch, names whom it follows and counts as a takeover exactly when that one had not ended |
| ClaimRuns.DurationsCount | crates/core/src/ownership.rs:836-923 | durations count as they are up to the clock's range; beyond it a lease counts as 45 s and a grace as 900 s |
| ClaimRuns.AcquiredClaimHolds | crates/core/src/ownership.rs:836-958 | an acquired claim is the requester's; until its lease ends, and exactly until then, it verifies and shuts out every other claim; no other id changes |
| ClaimRuns.RenewedClaimHolds | crates/core/src/ownership.rs:925-958 | a renewal succeeds exactly for an unexpired holder and moves the end of the exclusion to a full span from now |
| ClaimRuns.EndedClaimReopens | crates/core/src/ownership.rs:960-980 | after a terminal transition the claim never verifies; a released id reopens at once, a handed-off one exactly when the claimer's grace has elapsed |
| ClaimRuns.ClaimKeepsInv | crates/core/src/ownership.rs:836-923 | a claim appends the next epoch to the id's log or leaves the log alone, and the row stays the latest issued claim |
| ClaimRuns.StepKeepsInv | crates/core/src/ownership.rs:836-980 | every store operation keeps rows and issued log in step |
| ClaimRuns.RunKeepsInv | crates/core/src/ownership.rs:836-980 | so does every run by any replicas, under any clock |
| ClaimRuns.EpochsFence | crates/core/src/ownership.rs:836-958 | in every run no two claims issued for one id share an epoch, only the latest can verify, the takeover count stays below the epoch and the previous owner is the owner of the preceding epoch |
| ClaimRuns.VerifiesIff | crates/core/src/ownership.rs:945-958 | an issued claim verifies exactly when it is the latest one, claimed and unexpired |
| ClaimRuns.StaleAfterStep | crates/core/src/ownership.rs:836-980 | one operation at a later time does not revive a claim that fails `verify` |
| ClaimRuns.StaleAfterRun | crates/core/src/ownership.rs:836-980 | nor does any run under a monotone clock |
| ClaimRuns.OnceFencedAlwaysFenced | crates/core/src/ownership.rs:925-958 | a claim that failed `verify` once fails every later `verify` and `renew`, whatever any replica does in between |
| ClaimRuns.BackwardClockRevives | crates/core/src/ownership.rs:945-958 | a clock that steps back below the lease end revives the claim |
| ClaimRuns.AlwaysStaysDeadIff | crates/core/src/ownership.rs:925-958 | a bound on how far the clock steps back makes losing a claim final in all runs exactly when it is zero |
| Broadcasts.StepRefinesStore | crates/core/src/ownership.rs:428-659 | each step of the composed protocol is at most one claim-store operation |
| Broadcasts.ActKeepsEpisode | crates/core/src/ownership.rs:428-659 | fence, record, send, settle, renew, finish and crash each keep what holds of a guard, its intents, reports and broadcasts; a failed fence still lets the worker finish |
| Broadcasts.StaleActIsHarmless | crates/core/src/ownership.rs:925-980 | a guard that no longer holds the row changes neither the row nor the lease granted to it or its ending |
| Broadcasts.AcquireKeepsId | crates/core/src/ownership.rs:841-922 | a claim is issued only behind a release, an expired lease or an elapsed grace |
| Broadcasts.RunKeepsInv | crates/core/src/ownership.rs:428-659 | every run of the composed protocol under a monotone clock keeps the invariant |
| Broadcasts.BroadcastsAreSeparated | crates/core/src/ownership.rs:841-922 | two broadcasts for one execution id under different guards are separated by a release on a determinate report, an expired lease or a fully elapsed hand-off grace |
| Broadcasts.InLeaseBroadcastsAreOrdered | crates/core/src/ownership.rs:428-478 | a broadcast sent by the end of its own lease, or before its guard ended, is stamped no later than any broadcast of a later guard |
| Broadcasts.StalledBroadcastFollowsTakeover | crates/core/src/ownership.rs:428-478 | from every reachable state whose latest guard has journaled its intent, and for every send at or after the lease end, a continuation in which the guard that took over has broadcast before that send |
| Broadcasts.SendPrecedesLaterGuardsIff | crates/core/src/ownership.rs:428-478 | from each such state a send at `u` comes before every later guard's broadcast in every continuation exactly when `u` is before the lease end |
| Broadcasts.SendBeforeLeaseEndIsFirst | crates/core/src/ownership.rs:841-922 | in every run a guard that still has its broadcast ahead of it before its lease ends is the latest one issued |
| Broadcasts.IntentBeforeBroadcast | crates/core/src/recovery.rs:81-102 | every broadcast has its own intent, journaled after the fence and before the send; once settled that intent is abandoned exactly when the attempt reported an error, no signature or an empty one |
| Broadcasts.ReleaseFollowsReports | crates/core/src/ownership.rs:581-659 | a guard that ended handed off exactly when an attempt reported ambiguity; read for releases, one left an unproven broadcast behind exactly when it was misreported and no other attempt reported ambiguity |
| Broadcasts.FailureAfterSendIsReleased | crates/core/src/recovery.rs:81-102 | a run in which an attempt sends and then fails: its intent is abandoned and its guard released with the broadcast unproven |
| Broadcasts.WithIntent | crates/core/src/recovery.rs:81-102 | record, run, then link a non-empty signature or abandon, in that order; the result passes through, with or without a journal |
| Broadcasts.LinkedIff | crates/core/src/recovery.rs:81-102 | an intent is linked exactly by an attempt that succeeded with a non-empty signature |
| Broadcasts.JournalThenAttempt | crates/core/src/recovery.rs:81-102 | a fenced worker journals exactly one open intent, stamped then, and makes exactly one attempt under it, stamped when sent |
| Broadcasts.FinishEndsIff | crates/core/src/ownership.rs:581-659 | a worker may finish before, between and after attempts, a failed one included; the store records the ending exactly for a holder that reaches it, as a hand-off exactly after an ambiguous report |
| Broadcasts.RenewalExtends | crates/core/src/ownership.rs:481-542 | a renewal by the unexpired holder within its budget moves the lease end to a full lease from now, in any phase of the worker |
| Broadcasts.CrashIsFinal | crates/core/src/ownership.rs:428-659 | a worker may crash at any point, and nothing it would do later has any effect |
| Broadcasts.LeaseIsBounded | crates/core/src/ownership.rs:481-542 | every guard ever issued has at most 40 renewals, and the lease the store granted it ends within (renewals + 1) leases of its acquisition |
| Broadcasts.OwnLeaseIsBounded | crates/core/src/ownership.rs:481-542 | the guard's own copy of its lease end runs ahead of the store's by at most the delay of its second clock reading, and is bounded accordingly |
| Broadcasts.HungWorkerLosesTheClaim | crates/core/src/ownership.rs:887-943 | 41 leases after an acquisition anyone acquires a claim that had no terminal transition, as the next epoch and a counted takeover |
| RedisClaims.ClaimDurationMs | crates/core/src/redis_ownership.rs:57-66 | a duration is refused exactly beyond the limit, and otherwise comes out as the larger of itself and one second |
| RedisClaims.RedisClaimStore.constructor | crates/core/src/redis_ownership.rs:81-134 | an empty database |
| RedisClaims.RedisClaimStore.Claim | crates/core/src/redis_ownership.rs:81-134 | the script's hash, expiry and reply, every time and duration an integer below 2^53; what reply and expiry mean to the next claimer is `AfterAcquisition` |
| RedisClaims.RedisClaimStore.Renew | crates/core/src/redis_ownership.rs:138-160 | the script's hash, expiry and reply, with exact times and durations |
| RedisClaims.RedisClaimStore.Verify | crates/core/src/redis_ownership.rs:163-175 | the script's answer |
| RedisClaims.RedisClaimStore.Release | crates/core/src/redis_ownership.rs:178-207 | the script's hash, expiry and reply, with exact times and durations |
| RedisClaims.ClaimErrorsIff | crates/core/src/redis_ownership.rs:81-134 | a claim fails exactly when the row's lifetime, two leases and the grace from now, would leave the exact range, and then changes nothing |
| RedisClaims.AfterAcquisition | crates/core/src/redis_ownership.rs:81-134 | the next claim on an acquired id is refused until the lease ends, takes over (next epoch, one more takeover, the former owner named) for another lease and the grace, and starts at epoch 1 only after that |
| RedisClaims.AfterRenewal | crates/core/src/redis_ownership.rs:138-160 | so it goes after a renewal, by the recorded spans, and a renewal never shortens the life of the key |
| RedisClaims.RenewErrorsIff | crates/core/src/redis_ownership.rs:138-160 | a holder's renewal fails exactly when that lifetime would leave the exact range |
| RedisClaims.AfterEnding | crates/core/src/redis_ownership.rs:178-207 | after a release, and after a hand-off once the claimer's own grace has elapsed, the next claim follows under the next epoch for as long as the row is remembered, then starts afresh; seven days, for a hand-off at least the recorded grace and lease, without end where no grace was recorded |
| RedisClaims.ReleaseErrorsIff | crates/core/src/redis_ownership.rs:178-207 | a holder's release fails exactly when that memory would leave the exact range |
| RedisClaims.RunKeepsOutlive | crates/core/src/redis_ownership.rs:81-207 | in every admissible run a claimed row with recorded spans outlives its lease by another lease and the grace |
| RedisClaims.ExpiredLeaseIsTakenOver | crates/core/src/redis_ownership.rs:81-134 | so in every run from an empty database a claim that comes in that time takes over from the holder; the fencing epoch does not restart |
| RedisClaims.StepKeepsInv | crates/core/src/redis_ownership.rs:81-207 | after each script the expiry is at or after the end of the row's blocking window, legacy hand-offs have none, and every stored time and duration is exact |
| RedisClaims.RunKeepsInv | crates/core/src/redis_ownership.rs:81-207 | so it is after every run of scripts |
| RedisClaims.CountersStayExact | crates/core/src/redis_ownership.rs:81-134 | epoch and takeover counters grow by at most one per script, so they too stay exact for the first 2^53 scripts |
| RedisClaims.TtlNeverRemovesABlockingRow | crates/core/src/redis_ownership.rs:81-207 | a key that has outlived its expiry no longer blocked, as a claim or as a hand-off within its retention |
| RedisClaims.HandOffOutlivesWindowIff | crates/core/src/redis_ownership.rs:178-207 | a handed-off row outlives a claimer's blocking window exactly when the claimer's grace is within the retention plus a millisecond |
| RedisClaims.LongGraceOutlivesTheRow | crates/core/src/redis_ownership.rs:81-207 | a run in which a handed-off key expires while it still blocks a claimer with a longer grace, who then acquires epoch 1 again |
| RedisClaims.ClaimScriptRefines | crates/core/src/redis_ownership.rs:251-339 | on the keys still alive the claim script decides and stamps exactly as the in-memory store |
| RedisClaims.RunKeepsOwnersNamed | crates/core/src/redis_ownership.rs:81-207 | rows keep named owners, which the refinement relies on, in every run whose claimers have names |
| RedisClaims.RenewScriptRefines | crates/core/src/redis_ownership.rs:138-175 | so do the renew and verify scripts |
| RedisClaims.ReleaseScriptRefines | crates/core/src/redis_ownership.rs:178-207 | so does the release script |
| Positions.Position.constructor | crates/core/src/models.rs:527-550 | a position starts as the empty book |
| Positions.Position.Buy | crates/core/src/models.rs:527-550 | the whole book after a buy; an unsound book or fill changes nothing; `BuyAverages` and `CountsIff` say what that book is |
| Positions.Position.Sell | crates/core/src/models.rs:553-603 | the whole book and the profit of a sell, clamped to the holding, with dust closed out |
| Positions.BuyAverages | crates/core/src/models.rs:527-550 | an accepted buy adds its quantity and cost, and the new average times the new quantity is the old average times the old quantity plus price times quantity |
| Positions.SellKeepsAverage | crates/core/src/models.rs:553-603 | a sell leaves the average alone and takes what is held at most; within dust of everything it takes everything |
| Positions.CountsIff | crates/core/src/models.rs:506-603 | a fill counts exactly when quantity is a positive number and price and quote are numbers not below zero, a sell only against a holding, and only for a book with no negative figure |
| Positions.MarksFollowTrades | crates/core/src/models.rs:527-603 | the last mark is the price of the last trade the book took, in every history |
| Positions.HighWaterIsHighestBuy | crates/core/src/models.rs:527-550 | the high water is the highest accepted buy price of the history |
| Positions.UnattributedBook | crates/core/src/models.rs:462-494 | a row whose earlier exits cannot be attributed keeps that mark, reports proceeds less basis, and takes its percentage over that basis alone |
| Positions.ReconstructPnl | crates/core/src/reconciliation.rs:418-467 | the loop over fills computes the fold of its one-fill step, malformed fills skipped |
| Positions.FillConserves | crates/core/src/reconciliation.rs:425-466 | each fill keeps cash in less cash out plus profit equal to the open cost |
| Positions.ReplayConservesCash | crates/core/src/reconciliation.rs:425-467 | that holds for every list of fills, malformed and over-sold included, and is zero when flat |
| Positions.TradeKeepsBookOk | crates/core/src/models.rs:506-603 | each trade keeps the book sound and grows the lifecycle basis by exactly the quote of an accepted buy |
| Positions.BookConservesCash | crates/core/src/models.rs:527-603 | for every history, proceeds less booked profit plus remaining basis equals the quote the accepted buys spent |
| Positions.ProfitIsOverSpent | crates/core/src/models.rs:462-494 | the percentage is over everything ever spent, and a flat position's profit is what came back less what went in |
| Positions.AverageEntryIsWithinPrices | crates/core/src/models.rs:527-550 | an open position's average entry lies between the lowest and highest accepted buy price since the book was last flat |
| Positions.AverageIsVolumeWeighted | crates/core/src/models.rs:527-550 | while nothing was sold since the book was last flat, average entry times quantity is the sum of price times quantity over the accepted buys since |
| Positions.BasisIsAverageTimesQuantity | crates/core/src/models.rs:527-603 | for every history of buys at their price, sells of any kind included, average entry times quantity is the cost basis |
| Positions.ProfitIsEquity | crates/core/src/models.rs:462-494 | for those histories total profit is proceeds plus what is held at the last price, less what was spent |
| Positions.AgreesIff | crates/core/src/models.rs:527-603 | one fill keeps book and replay in agreement exactly when it is reconcilable with what the book holds |
| Positions.BookAgreesWithReplayIff | crates/core/src/reconciliation.rs:418-467 | book and replay agree throughout a history exactly when every fill was reconcilable |
| Positions.OverSellDiffers | crates/core/src/reconciliation.rs:440-460 | after every buy and over-sell that brings in cash the book has booked more proceeds than the replay |
| Positions.ReconstructionMatchesBook | crates/core/src/reconciliation.rs:418-467 | the reconstruction of such a history reports the book's quantity, basis, proceeds, profit and total spent |
| Positions.ReconstructedAverage | crates/core/src/reconciliation.rs:453-467 | the average a replay reports is its open cost per unit held |
| Positions.AveragesAgree | crates/core/src/reconciliation.rs:418-467 | where buys are at their price and every fill was reconcilable it is the book's average entry |
| Positions.SidesAnyCase | crates/core/src/reconciliation.rs:425-440 | a side counts as a buy or a sell in any mixture of upper and lower case, and as nothing else |
| Amm.OutIsExact | crates/core/src/maths.rs:124-152 | with the fee at most its denominator no saturation, wrap or clamp fires: the quote is the exact floor, below the output reserve |
| Amm.OutInCallersTerms | crates/core/src/maths.rs:124-152 | the quote over the fee denominator as the caller gives it, and over 10 000 where that is zero |
| Amm.Unquotable | crates/core/src/maths.rs:124-181 | no output for no input or an empty reserve; the u64 maximum for an output of zero, of a whole reserve, from an empty one or through a fee of 100% |
| Amm.OutIsGreatestSafe | crates/core/src/maths.rs:124-152 | the quote is the greatest output that does not lower the product of reserves |
| Amm.SwapKeepsProduct | crates/core/src/maths.rs:124-152 | a swap at the quote never lowers the product |
| Amm.SwapTakesPlace | crates/core/src/maths.rs:124-152 | a swap the input reserve can hold moves both reserves by the input and its quote, in either direction |
| Amm.SwapsNeverLowerTheProduct | crates/core/src/maths.rs:124-152 | nor does any sequence of fee-bearing swaps in either direction, and no reserve is drained |
| Amm.InIsExact | crates/core/src/maths.rs:155-181 | where nothing overflows the input quote is positive and exactly one more than the floor of the rational formula |
| Amm.InSaturates | crates/core/src/maths.rs:155-181 | an input quote beyond u64 that does not wrap is the u64 maximum |
| Amm.InFallsShortByLessThanOne | crates/core/src/maths.rs:155-181 | its after-fee value falls short of the required real amount by less than one unit |
| Amm.BuysBackIff | crates/core/src/maths.rs:124-181 | a given input buys at least the requested output exactly when its after-fee value covers the required amount |
| Amm.ZeroFeeInBuysBack | crates/core/src/maths.rs:124-181 | without a fee the quoted input always buys the request, and two units less never do |
| Amm.FeeInCanMissTheRequest | crates/core/src/maths.rs:155-181 | a concrete quoted input that buys less than requested |
| Amm.FeeMissesTheRequest | crates/core/src/maths.rs:155-181 | for every fee there are pools on which the input quoted for one unit buys nothing |
| Amm.AlwaysBuysBackIff | crates/core/src/maths.rs:124-181 | for fee denominators up to two below the u64 maximum, the quoted input buys every request in range exactly when the fee is zero |
| Amm.ToppedUpInBuysBack | crates/core/src/maths.rs:155-181 | adding the input worth one after-fee unit always buys the request |
| Amm.FeeAboveOneDrains | crates/core/src/maths.rs:124-152 | an instance above the denominator: one unit of input is quoted all but one unit of the reserve, which lowers the product |
| Amm.FeeAboveOneIsUnsafe | crates/core/src/maths.rs:124-152 | for every fee above its denominator there is a pool on which one unit of input drains the reserve or lowers the product |
| Amm.AlwaysSafeIff | crates/core/src/maths.rs:124-152 | quoted swaps keep the product and never drain, on every pool and for every input, exactly when the fee is at most its denominator |
| Amm.BuyCostIsLeast | crates/core/src/maths.rs:201-232 | the buy cost is the least payment that keeps the product |
| Amm.TokensForSolIsGreatest | crates/core/src/maths.rs:235-258 | the token quote is the greatest amount that keeps the product |
| Amm.SolForTokensIsGreatest | crates/core/src/maths.rs:261-281 | the sell quote is the greatest payout that keeps the product |
| Amm.CurveEdges | crates/core/src/maths.rs:201-281 | nothing costs and brings nothing, the whole token reserve cannot be bought, and against an empty reserve a trade takes all of the other side |
| Amm.BuyQuotesAreAdjoint | crates/core/src/maths.rs:201-258 | buying t costs at most s exactly when s buys at least t |
| Amm.TradeKeepsProduct | crates/core/src/maths.rs:201-281 | each curve trade at its quote keeps the product |
| Amm.TradeTakesPlace | crates/core/src/maths.rs:201-281 | a curve trade the reserves can hold takes place at its quote, and both sides of it are counted |
| Amm.TradesNeverLowerTheProduct | crates/core/src/maths.rs:201-281 | so does every sequence of them |
| Amm.NoFreeSol | crates/core/src/maths.rs:201-281 | a sequence of curve trades with zero net tokens never returns more SOL than was paid |
| RateLimiter.Limiter.constructor | crates/core/src/auth.rs:195-229 | an empty bucket map |
| RateLimiter.Limiter.Spend | crates/core/src/auth.rs:258-275 | refill, stamp and take one token, or the seconds to wait |
| RateLimiter.Limiter.CheckKey | crates/core/src/auth.rs:236-276 | the whole new bucket map and verdict, and the map stays within its cap |
| RateLimiter.IdleBucketIsFull | crates/core/src/auth.rs:248-262 | a bucket idle for a minute has refilled to capacity, like a fresh one |
| RateLimiter.CheckSimulates | crates/core/src/auth.rs:236-276 | one check with a reading at most 540 s late answers as the never-swept limiter does, or is the hard-cap refusal, and the maps stay related |
| RateLimiter.SweepIsInvisible | crates/core/src/auth.rs:244-276 | on every run whose readings are at most 540 s late every verdict is the hard-cap refusal or exactly that of a limiter with one bucket per key for ever |
| RateLimiter.SweepIsInvisibleIff | crates/core/src/auth.rs:236-276 | a bound on lateness makes the sweep invisible on all runs exactly when it is within 540 s |
| RateLimiter.LateReadingsShowTheSweep | crates/core/src/auth.rs:236-276 | for every larger bound, a run of four requests on which swept and never-swept limiter differ |
| RateLimiter.RunKeepsCap | crates/core/src/auth.rs:244-256 | in every run the number of tracked buckets stays within the cap |
| RateLimiter.CheckTakesOneToken | crates/core/src/auth.rs:258-276 | a request the cap lets through is allowed exactly when a token is available, takes exactly one, and leaves every other key's tokens alone, sweep included |
| RateLimiter.CapRefusesIff | crates/core/src/auth.rs:244-256 | the hard cap refuses, with a wait of a minute, exactly a key without a bucket that finds `cap` others used within ten minutes |
| RateLimiter.ZeroRpmAllows | crates/core/src/auth.rs:236-241 | at zero requests per minute everything is allowed and nothing tracked |
| RateLimiter.BurstIsRpm | crates/core/src/auth.rs:258-276 | a fresh key is allowed exactly its requests per minute at once |
| RateLimiter.RunSpends | crates/core/src/auth.rs:258-276 | what a key is allowed in a run, readings in any order, is paid for by the tokens it held and those minted as the readings moved forward |
| RateLimiter.WindowBound | crates/core/src/auth.rs:258-276 | for every key and window of every run, readings in any order, at most rpm + rpm T / 60 requests are allowed, where T is how far the readings moved forward in all |
| RateLimiter.OwnWindowBound | crates/core/src/auth.rs:236-276 | while readings are at most 540 s late the same holds with T taken over the key's own readings only |
| RateLimiter.OrderedWindowBound | crates/core/src/auth.rs:258-276 | for a window in clock order that T is its length |
| RateLimiter.RpmBound | crates/core/src/auth.rs:236-276 | in the configured terms: a window of T seconds in clock order lets through at most rpm + rpm T / 60 |
| RateLimiter.LateReadingsBeatTheRate | crates/core/src/auth.rs:242-276 | however small the lateness, at one request per minute, readings that all lie within half a minute get any number of requests through |
| RateLimiter.AlwaysWithinRateIff | crates/core/src/auth.rs:236-276 | the plain rate bounds every window of every run with readings at most so late exactly when none is late at all |
| RateLimiter.RetryAfterIsHonoured | crates/core/src/auth.rs:265-276 | a key limited by its own bucket that stays quiet for the advertised time is allowed next while its bucket is tracked |
| RateLimiter.WaitIsLeast | crates/core/src/auth.rs:265-276 | the advertised wait is the least whole number of seconds, at least one, after which the key is allowed |
| Orders.LegalMovesClimb | crates/core/src/oms.rs:112-129 | every legal move raises a status rank, except one more partial fill |
| Orders.MoveKeepsOk | crates/core/src/oms.rs:317-352 | a legal move keeps `finished_at` set exactly when the status is terminal |
| Orders.HistoryAdvances | crates/core/src/oms.rs:317-352 | each step of a history leaves the order as it was or climbs the rank from a live status, keeping identity and submission stamp; `finished_at` is set exactly when terminal |
| Orders.HistoryIsForward | crates/core/src/oms.rs:95-129 | in every history ranks never fall, a terminal order never changes again, and a submission stamp once set stays |
| Orders.FilledWasSubmittedOrUnknown | crates/core/src/oms.rs:112-129 | an order that is Filled was Submitted or Unknown before |
| Orders.KeptShape | crates/core/src/oms.rs:482-500 | eviction removes the terminal entries of a prefix of the FIFO and nothing else: oldest first |
| Orders.KeptSize | crates/core/src/oms.rs:482-500 | no more entries leave than needed, and fewer only when every entry left is live |
| Orders.EvictionIsLeast | crates/core/src/oms.rs:482-500 | eviction stops at the cap, and a finished order stays wherever an older finished one does |
| Orders.InsertionIsSound | crates/core/src/oms.rs:472-500 | after every insertion id map, FIFO and key index describe the same orders, no live order was evicted, nothing kept was altered, and the size is within the cap or everything left is live |
| Orders.AddKeepsConsistentIff | crates/core/src/oms.rs:472-481 | an insertion keeps the three structures consistent exactly when no other order holds the key and the order keeps its own |
| Orders.OrderManager.constructor | crates/core/src/oms.rs:218-227 | empty structures and a cap of at least 64 |
| Orders.TransitionGrantedIff | crates/core/src/oms.rs:95-129 | for every tracked order, exactly which transitions are granted, status by status |
| Orders.TransitionEffect | crates/core/src/oms.rs:317-352 | a granted transition moves this order only, with exactly these stamps and reason; a refused one says whether the order is unknown and changes nothing |
| Orders.NextIsTransition | crates/core/src/oms.rs:317-352 | the moves of the histories above are the transitions of the manager |
| Orders.CreateAnswers | crates/core/src/oms.rs:240-313 | a creation is refused exactly for a key of white space, answers a known key with its order, and gives any other a fresh live order under an id never used |
| Orders.OrderManager.GetByKey | crates/core/src/oms.rs:407-410 | the mirrored order of a key, through the index |
| Orders.OrderManager.Create | crates/core/src/oms.rs:240-313 | a blank key is refused, a known key returns its order, otherwise a fresh order is mirrored; the structures stay consistent |
| Orders.OrderManager.Transition | crates/core/src/oms.rs:317-362 | the moved order, or an error with nothing changed; which it is, and what moves, are `TransitionGrantedIff` and `TransitionEffect` |
| Orders.OrderManager.InsertMirror | crates/core/src/oms.rs:472-500 | the three structures after insertion and eviction |
| Orders.OrderManager.EvictOverflow | crates/core/src/oms.rs:482-500 | the eviction loop ends in exactly the bounded mirror |
| Orders.OrderManager.EvictAt | crates/core/src/oms.rs:485-499 | one round drops the oldest terminal order from all three structures and leaves the same end in sight |
| Orders.CreateKeepsInv | crates/core/src/oms.rs:240-313 | creation keeps mirror and archive of all orders in step |
| Orders.TransitionKeepsInv | crates/core/src/oms.rs:317-352 | so does a transition |
| Orders.RunKeepsInv | crates/core/src/oms.rs:240-352 | so does every sequential run |
| Orders.RunKeepsByAge | crates/core/src/oms.rs:472-500 | in every sequential run the FIFO lists the orders by age, so that what eviction drops first is oldest |
| Orders.CreateIsIdempotent | crates/core/src/oms.rs:240-313 | creating again with the same key changes nothing and returns the first order |
| Orders.OneLiveOrderPerKey | crates/core/src/oms.rs:240-313 | in every sequential run at most one order ever created per key is live, and it is the one returned for the key |
| Flags.AppFlags.constructor | crates/core/src/state.rs:709-773 | no kill, no halt, nothing enabled, no local decision |
| Flags.FlagStore.constructor | crates/core/src/state.rs:682-690 | an empty store |
| Flags.AppFlags.PublishFlag | crates/core/src/state.rs:682-690 | stamps the local decision and writes the row, if there is a store |
| Flags.AppFlags.SetKillSwitch | crates/core/src/state.rs:469-481 | sets, stamps and publishes the kill switch, always |
| Flags.AppFlags.ClearHalt | crates/core/src/state.rs:523-530 | clears, stamps and publishes the halt, always |
| Flags.AppFlags.SetEnabled | crates/core/src/state.rs:575-586 | sets the module and returns what it was; stamps and publishes only if that changed |
| Flags.AppFlags.ApplyRemoteKill | crates/core/src/state.rs:598-612 | sets the kill switch, reports a change, leaves the local stamp alone |
| Flags.AppFlags.ApplyRemoteHalted | crates/core/src/state.rs:617-630 | sets the halt, reports a change, leaves the local stamp alone |
| Flags.AppFlags.SetEnabledLocal | crates/core/src/state.rs:775-795 | sets one module and returns what it was |
| Flags.AppFlags.ApplySafetyRow | crates/core/src/state.rs:712-735 | one stored kill or halt row: ON always applies, OFF when current |
| Flags.AppFlags.ApplyModuleRow | crates/core/src/state.rs:736-746 | one stored module row applies when current |
| Flags.AppFlags.ApplyFlagSync | crates/core/src/state.rs:709-764 | the loop over stored rows leaves the replica observably as the row-by-row fold does, and reports the changes |
| Flags.SyncEffect | crates/core/src/state.rs:709-773 | in whatever order rows are listed, each decides its own flag from the state before the round |
| Flags.ReportSays | crates/core/src/state.rs:709-764 | the report says whether kill switch or halt changed, how many modules changed and how many rows were passed over, each row judged by the state before the round |
| Flags.SafeDirectionWins | crates/core/src/state.rs:709-773 | a stored kill or halt ON takes effect whatever the stamps; an OFF or module row no newer than the replica's last published decision on that flag never overrides it |
| Flags.DecisionSurvivesIff | crates/core/src/state.rs:575-586 | a decision survives the replica's next sync exactly when it was published (a module decision only if it changed the local value), or no stored row contradicts it, or that row is no newer than the replica's last published stamp |
| Flags.UnchangedDecisionIsOverridden | crates/core/src/state.rs:575-586 | a run in which a module decision that changed nothing locally is undone by an older row |
| Flags.SyncConverges | crates/core/src/state.rs:709-773 | a sync of the current store makes the replica equal to it on every stored flag |
| Flags.StepKeepsInv | crates/core/src/state.rs:575-690 | every decision, published or not, and every sync keeps each replica's stamps behind the store's |
| Flags.RunKeepsInv | crates/core/src/state.rs:469-773 | so does every run with strictly increasing stamps |
| Flags.SyncRound | crates/core/src/state.rs:709-764 | syncs neither move the store nor undo convergence |
| Flags.FlagsConverge | crates/core/src/state.rs:469-773 | after the last decision, one sync per replica leaves every replica equal to the store on every stored flag |
| Dedup.BoundedSet.constructor | crates/core/src/state.rs:24-30 | empty |
| Dedup.BoundedSet.Contains | crates/core/src/state.rs:31-34 | membership in the remembered keys |
| Dedup.BoundedSet.Insert | crates/core/src/state.rs:37-52 | the remembered keys and the verdict; set and queue stay the same keys, and the offered key is among them |
| Dedup.BoundedSet.Remove | crates/core/src/state.rs:55-63 | the key is gone and every other one stays in order |
| Dedup.OfferedKeyIsRemembered | crates/core/src/state.rs:37-52 | after every offer the key is remembered; a new one goes last, the length is the smaller of one more and the cap, and what leaves is from the front |
| Dedup.RemembersLastNovel | crates/core/src/state.rs:37-52 | for every sequence of offers the set holds exactly the last `cap` of what it remembered and what it answered as new |
| Dedup.RememberedIff | crates/core/src/state.rs:37-52 | over every sequence of offers a key is remembered exactly while fewer than `cap` keys were new since it last was |
| Dedup.NothingForgottenWithinCap | crates/core/src/state.rs:37-52 | while those together fit `cap`, every key offered is remembered |
| Dedup.Seed | crates/module-copy/src/event_dedup.rs:78-91 | the loop offers every journaled key to the set as it is and counts the new ones |
| Dedup.SeededKeysAreDuplicates | crates/module-copy/src/event_dedup.rs:60-91 | seeding at most `cap` distinct keys into an empty set counts them, and every later claim of one is a duplicate until more than `cap` keys were new |
| Dedup.RedisKeyIsInjective | crates/core/src/dedup.rs:101-103 | for colon-free namespaces, Redis keys are equal exactly for equal namespace and key |
| Dedup.NamespacesShareAKeyIff | crates/core/src/dedup.rs:101-103 | two namespaces share a Redis key exactly when one, with its separator, is a prefix of the other with its own |
| Dedup.ColonNamespacesCollide | crates/core/src/dedup.rs:101-103 | two concrete marks under different namespaces share a key |
| Dedup.CopyKeyIsInjective | crates/module-copy/src/event_dedup.rs:95-103 | where signature, leader and mint contain no colon, events get the same key exactly when their trimmed parts are the same |
| Dedup.TrimIsMiddle | crates/module-copy/src/event_dedup.rs:95-103 | trimming takes white space off both ends and nothing else |
| Dedup.SharesKeyIff | crates/module-copy/src/event_dedup.rs:95-103 | for every event, another one that differs when trimmed has the same key exactly when the trimmed parts contain a colon with no white space beside it |
| Dedup.SpareColonIff | crates/module-copy/src/event_dedup.rs:95-103 | for parts without white space that is exactly when some part contains a colon |
| Dedup.ColonPartsCollide | crates/module-copy/src/event_dedup.rs:95-103 | two concrete events with a colon in a part share a key |
| Dedup.DedupStore.constructor | crates/core/src/dedup.rs:75-95 | empty first layer and a cap of at least 64 |
| Dedup.DedupStore.Mark | crates/core/src/dedup.rs:107-170 | both layers after a mark and its verdict, a failing second layer included |
| Dedup.DedupStore.Forget | crates/core/src/dedup.rs:209-233 | both layers after a forget |
| Dedup.RepeatIsAnsweredLocally | crates/core/src/dedup.rs:107-170 | asked again for a key, the first layer that has just remembered it answers alone |
| Dedup.StepKeepsWins | crates/core/src/dedup.rs:107-170 | the second layer holds exactly the keys of the marks that returned true, each once |
| Dedup.StepKeepsMemory | crates/core/src/dedup.rs:107-170 | what a first layer remembers is settled in the second or in flight on the same replica |
| Dedup.AtMostOneWin | crates/core/src/dedup.rs:107-170 | in every interleaving of marks and restarts at most one mark per (namespace, key) returns true |
| Dedup.CompletedMarkHasAWinner | crates/core/src/dedup.rs:107-170 | a mark that reached the second layer leaves a winner behind; a first-layer duplicate means a winner or a mark in flight |
| EntrySizing.SizeEntry | crates/core/src/risk.rs:1011-1087 | the narrowing of the running size yields the room under all five caps when there is any, and nothing positive otherwise |
| EntrySizing.CheckEntry | crates/core/src/risk.rs:835-1174 | the cascade computes the decision of `Decide`, which `DecisionIsFirstFailure` settles gate by gate |
| EntrySizing.Refusal | crates/core/src/risk.rs:591-1009 | past every gate the request is finite and positive and the balance above the reserve; `RefusalIsFirstFailure` says when that is |
| EntrySizing.PreflightIsFirstFailure | crates/core/src/risk.rs:591-716 | the preflight passes exactly when its eight gates do, stated on the inputs, and refuses with the code of the first that does not |
| EntrySizing.RefusalIsFirstFailure | crates/core/src/risk.rs:591-1009 | so do the nineteen gates before sizing |
| EntrySizing.DecisionIsFirstFailure | crates/core/src/risk.rs:835-1174 | for every input an entry is admitted exactly when all twenty-two gates pass, and otherwise rejected with the code of the first that fails; a kill switch rejects whatever else holds |
| EntrySizing.AdmittedSizeIsLargest | crates/core/src/risk.rs:1011-1174 | the admitted size fits every bound as configured, no larger size does, and it is reported as reduced exactly when it falls short of the request |
| EntrySizing.AdmittedSizeIsTheRoom | crates/core/src/risk.rs:1011-1087 | an admitted size is positive, within request, position cap, balance fraction, spendable balance and remaining exposure, and the largest such size |
| EntrySizing.PreflightMonotone | crates/core/src/risk.rs:591-716 | a preflight passed under less favourable answers passes under more favourable ones |
| EntrySizing.ExposureMonotone | crates/core/src/risk.rs:822-832 | a higher durable exposure never lowers the exposure used; for an operator or a sound book the lower one stays usable |
| EntrySizing.MonotoneInTheOracle | crates/core/src/risk.rs:750-1087 | less favourable answers that admit an entry admit no more than more favourable ones, exactly if the latter's exposure is usable |
| EntrySizing.MonotoneForSoundBooks | crates/core/src/risk.rs:750-1087 | for every process whose positions come from fills and whose reservations are positive, less favourable oracle answers admit no entry and no size that more favourable ones would not |
| EntrySizing.MonotoneForNonNegativeExposure | crates/core/src/risk.rs:750-1087 | so they do for every operator, and wherever the local exposure is not negative |
| EntrySizing.OpenExposureIsNonNegative | crates/core/src/state.rs:1298-1305 | the exposure of sound books is not negative |
| EntrySizing.ExposureAdds | crates/core/src/state.rs:1298-1305 | the exposure of several positions is the sum over each of what it cost or what it is worth, whichever is more |
| EntrySizing.ReservedIsNonNegative | crates/core/src/global_risk/engine.rs:660-693 | nor is that of positive reservations |
| EntrySizing.ReservationsAdd | crates/core/src/global_risk/engine.rs:660-693 | what is reserved is the sum of the sizes requested |
| EntrySizing.NegativeExposureAdmitsLess | crates/core/src/risk.rs:822-832 | against a negative local exposure, which only a malformed stored position gives, a lower durable exposure is refused and a higher one admitted |
| EntrySizing.OperatorOracleOnlyTightens | crates/core/src/risk.rs:750-832 | in operator mode an entry admitted with any oracle attached is admitted by the local view alone, at the same size |
| EntrySizing.TenantFailsClosed | crates/core/src/risk.rs:750-832 | a tenant's admission needs every oracle answer it asks for |
| EntrySizing.CapsTighten | crates/core/src/config.rs:455-509 | module caps on position, count and exposure are at most the generic ones |
| EntrySizing.ModuleLimitsOnlyTighten | crates/core/src/risk.rs:893-1087 | an entry admitted under module limits is admitted under the generic ones alone, at least as large |
| Cooldowns.SortedEntries | crates/core/src/state.rs:85-102 | the entries of the map, each once, oldest first |
| Cooldowns.PruneTimestamps | crates/core/src/state.rs:73-102 | expired entries go, then only the oldest past the cap; nothing else changes |
| Cooldowns.CooldownMap.constructor | crates/core/src/state.rs:1427-1460 | no stamps |
| Cooldowns.CooldownMap.Note | crates/core/src/state.rs:1451-1460 | stamps the key, then prunes |
| Cooldowns.CooldownMap.IsAllowed | crates/core/src/state.rs:1427-1449 | allowed without a cooldown, without a stamp, or once the whole seconds since it reach the cooldown |
| Cooldowns.AllowedIff | crates/core/src/state.rs:1427-1449 | on any clock a key is refused exactly under a positive cooldown with a stamp less than that many seconds ago, or still ahead |
| Cooldowns.RefusedIff | crates/core/src/state.rs:1427-1460 | in every run within the cap a key is refused exactly when the cooldown is positive and its last event is fewer seconds ago |
| Cooldowns.UnseenIsAllowed | crates/core/src/state.rs:1427-1449 | a key without events is always allowed |
| Cooldowns.PruneKeepsExactly | crates/core/src/state.rs:73-102 | while the cap allows, pruning keeps exactly the stamps no older than the cooldown, at least a minute, and ten minutes where there is none |
| Cooldowns.PrunedIsSubset | crates/core/src/state.rs:1052-1079 | in every run each kept stamp is the key's last one |
| Cooldowns.PrunedNeverRefusesMore | crates/core/src/state.rs:1427-1460 | pruning, even past the cap, never refuses what the full history allows |
| Cooldowns.DropsOnlyExpired | crates/core/src/state.rs:73-102 | while live entries fit the cap only expired ones are missing |
| Cooldowns.PrunedKeepsNewest | crates/core/src/state.rs:73-102 | past the cap, in every run under a monotone clock, an unexpired key missing from the map has a stamp no later than every one kept |
| Cooldowns.PrunedAnswersLikeFullHistory | crates/core/src/state.rs:1427-1460 | for a fixed cooldown and a monotone clock, every answer is that of the full history in every run whose live entries fit the cap |

## Left out

- Floating-point rounding and overflow: amounts are reals; a non-finite input is a separate value, an accumulated overflow to infinity is not modelled.
- Postgres repositories, Redis connections and timeouts, metrics, logging, audit rows, the event bus: I/O; stores are maps whose reachability is a parameter.
- EntrySizing.CheckEntry: the exit parameters an admission carries along (stop loss, take profit, trailing stop, longest hold) are not modelled; each is one expression over a configuration field and the quoted price.
- `GlobalRiskEngine`, the global ledger and `HaRuntime`: the portfolio gate is an arbitrary answer with a fixed reserved usage.
- Configuration parsing and range checks: only the cap accessors are modelled.
- Scheduling, jitter and cancellation in `run_guarded`: a renewal is a step that may happen at any time.
- `Permit` and the unmanaged mode around the guard: one-branch wrappers.
- `classify_execution`, `compare_position`, exit rules and the recovery loops: each case is read off one branch.
- Epoch freshness on Redis: a row removed by its expiry restarts at epoch 1, so only the lifetime of rows is claimed there.
- RedisClaims.RedisClaimStore.Claim: epoch and takeover counters are unbounded integers; `CountersStayExact` says how long they stay exact.
- Hashes with fields missing other than the lease and grace spans, and release scripts called with another mode than released or handed off.
- Broadcasts.RunKeepsInv: every attempt of the composed run is journaled; deployments without a journal appear in `WithIntent` only. A worker that reported ambiguity makes no further attempt under its guard, as none in the repository does.
- Orders.OrderManager.Create: atomic, hence sequential; the code takes separate locks for the duplicate check and the insert. Its database path, `recover_from_db` and `attach_external` are not modelled.
- Orders.OrderManager.InsertMirror: requires the key to be the order's own, which the database's unique column guarantees its callers; `AddKeepsConsistentIff` shows that consistency needs it.
- Dedup.AtMostOneWin: without second-layer errors, expiry or `forget`, each of which may admit a second winner by design.
- Dedup.DedupStore.Mark: first-layer sets are held by value as their remembered keys; the class `BoundedSet` models the update in place.
- Flags.FlagsConverge: each decision and its publication is one step, and an emergency stop is several; flag names are a datatype, so parsing of names is not modelled.
- Flags.AppFlags.SetEnabledLocal: start and stop times and the error counter of a module are not modelled.
- Date-time arithmetic beyond its range, except the fallback for durations that do not convert.
