# Traffic quota, plan pricing and client gating of lumi_panel, verified

This project models the billing core of lumi_panel in Dafny and proves what its comments,
tests and design document promise of it.

* **The quota ladder** (`internal/metering/ladder.go`, `internal/domain/quota.go`): the
  in-memory view of what every subscription has left. `QuotaLadder` is a class over the
  same map of entries as the original; each method that the original runs under its lock is
  one atomic step. `LadderSteps` gives the steps as functions, `LadderRuns`, `LadderLives`,
  `Batching` and `Optimality` state what holds of whole runs. Spending an amount down a list
  of allowances has one closed form, `Waterfall.Share`, and everything else is proved
  against it.
* **Buckets and resets** (`internal/domain/reset.go`): five-minute buckets, the proleptic
  Gregorian calendar with its leap years, and the reset schedule in a billing timezone.
* **Plan changes** (`internal/domain/plan.go`) and **billed bytes**
  (`internal/domain/traffic.go`): rounding directions and int64 bounds, over single changes
  and over runs.
* **Clients** (`internal/subplane/detect.go`, `internal/subplane/capability.go`): the
  User-Agent scanner, the ordered rules, and the version gate at their end. `VersionText` says
  what the scanner reads, `ClientRules` who a text is taken for and what it is offered.

## Reading the model

* Integers are Go's: fields are `Int64`, `Int32` or `Int16`, and an operation that can leave
  the range is written with `Wrap64`. `Quo` and `Rem` truncate as Go's `/` and `%` do.
* An instant is a number of nanoseconds since Go's zero time; a location is a fixed offset
  in seconds, and a nil location is UTC. Go's nil is `None`.
* Strings are ASCII, one character a byte.
* The schema supplies two premises (`migrations/0001_core.sql`): subscription IDs are not 0,
  and at most one primary is active. Statements that need them say so.

## Where code and comments part

* `internal/domain/quota.go:69-77` gives spending the soonest-expiring allowance first as the point of the
  order, but packs always go before the primary, whatever expires first.
  `DeductionOrderOptimalIff` says exactly when the order loses nothing, `PackFirstCanLose`
  is a ladder on which it loses a byte in two buckets.
* `internal/domain/quota.go:48-49` calls `Available` floored at zero. A counter negative enough makes the
  subtraction wrap below zero; `AvailableIsExact` says when it does not, and
  `EntitledButUncovered` what it does to authorisation.
* `internal/domain/reset.go:30-38` has every reset lie ahead. Under an offset that is not a whole number of
  buckets the snapping can put it at now; `ResetsAreAheadIff` is the exact condition.
* The loop in section 7.4 of `docs/design/v1.0.md` keeps a subscription live at its expiry
  instant; `ActiveAt` does not. The model follows the code (`CoveredUntilExpiry`).
* `internal/domain/traffic.go:38-39` speaks of 2^48 bytes in total; the code caps the sum at 2^47.

* `internal/domain/plan.go:162-165` has rounding always favour the user. The net does
  (`ProrateFavoursTheUser`); the allowance is floored and favours the operator by less than
  a byte (`ProratedAllowance`).
* `internal/subplane/detect.go:52-60` treats a wrapper's core version as unknown, and lines 168-170
  take the first version to belong to the application the rules matched. A wrapper that also
  names its core is matched by the core's name and read with its own version
  (`WrapperVersionIsRead`), which can open a gate to it (`WrapperVersionOpensGate`).
  `CompoundMihomoDetected` says exactly which version is read.

* `internal/subplane/detect.go:176-178` has a digit behind a letter be part of a name. Only the first
  digit is: the scan starts afresh at the second (`GluedRun`), so an architecture or system
  named with two digits ahead of the version is read as the version (`ArchitectureIsRead`).

## Model

| member | source | states |
|---|---|---|
| Quota.Attribute | internal/domain/quota.go:144-185 | The loop with its row index writes exactly the rows of the scan, which sum to the billed amount, name each subscription at most once and are all positive, for any slice |
| Quota.AttributeTotals | internal/domain/quota.go:144-185 | For any slice, repeated IDs included, the row of an ID is what all its entries contribute, and what nothing covers is overflow |
| Quota.AttributeIsGreedy | internal/domain/quota.go:125-185 | For distinct nonzero IDs the rows are a greedy split: within each allowance, nothing from expired entries, a later entry only once the earlier ones are drained, overflow only once all are |
| Waterfall.GreedySplitIsUnique | internal/domain/quota.go:125-185 | The greedy conditions leave exactly one split |
| Waterfall.SharesCompose | internal/domain/quota.go:144-185 | Spending one amount and then another takes from each entry, and overflows, as spending both at once |
| Quota.RowsInOrder | internal/domain/quota.go:155-184 | Rows come in deduction order and the overflow row comes last |
| Quota.RowsNameEntries | internal/domain/quota.go:155-184 | No row names an ID that is neither in the slice nor the sentinel |
| Quota.ApplyAttribution | internal/domain/quota.go:192-204 | The in-place deduction of every row from the first entry with its ID, overflow skipped |
| Quota.DeductedPointwise | internal/domain/quota.go:192-204 | With distinct IDs each entry is charged the amount of its own row and nothing else |
| Quota.GateOpen | internal/metering/ladder.go:184-201 | Where every entry counts the bucket, the gated deduction of the ladder is that of ApplyAttribution |
| Quota.AvailableIsExact | internal/domain/quota.go:50-55 | The availability is the true one floored at zero exactly while the difference fits an int64, as nonnegative counters make it |
| Quota.EntitledIffOneByteIsCovered | internal/domain/reset.go:105-107 | Some subscription is entitled exactly when one billed byte finds an owner, if and only if some entitled allowance is exact or all are; nonnegative counters make them so |
| Quota.EntitledButUncovered | internal/domain/reset.go:105-107 | A negative counter under the largest allowance is entitled while every byte overflows |
| Quota.CoveredUntilExpiry | internal/domain/quota.go:58-60 | A lone subscription pays for a byte up to its expiry, and not at it |
| DeductionOrder.StrictWeakOrder | internal/domain/quota.go:91-121 | The comparator is a strict weak order for every kind, unknown ones included, and total on distinct IDs |
| DeductionOrder.SortForDeduction | internal/domain/quota.go:102-123 | The in-place sort leaves the stable sort of the slice |
| DeductionOrder.SortedInOrder | internal/domain/quota.go:102-123 | The result is in deduction order |
| DeductionOrder.DeductionSequence | internal/domain/quota.go:91-123 | The sorted slice has packs first, then the primary, then unknown kinds; packs by expiry, permanent ones last; what that leaves open by ascending ID |
| DeductionOrder.SortedKeepsTies | internal/domain/quota.go:103 | Tied entries keep their order |
| DeductionOrder.SortedIgnoresArrival | internal/domain/quota.go:76-79 | With distinct IDs the result depends on the set alone, not on the order it arrived in |
| LadderSteps.PrepareKeepsFirst | internal/metering/ladder.go:94-105 | prepare keeps the first entry of every ID and no other, without repeats and in deduction order |
| LadderSteps.FlushChargesShares | internal/metering/ladder.go:182-202 | A flush charges every entry its share, within its allowance, and only if its period includes the bucket |
| LadderSteps.StepKeepsPrepared | internal/metering/ladder.go:52-243 | Every call keeps every held set free of repeats and in deduction order |
| QuotaLadders.QuotaLadder.constructor | internal/metering/ladder.go:39-41 | A new ladder holds nobody |
| QuotaLadders.QuotaLadder.Rebuild | internal/metering/ladder.go:52-56 | Installs the prepared set with the counters it came with |
| QuotaLadders.QuotaLadder.Sync | internal/metering/ladder.go:70-86 | Installs the prepared set, keeping the counters already held |
| QuotaLadders.QuotaLadder.Drop | internal/metering/ladder.go:122-126 | Forgets the user |
| QuotaLadders.QuotaLadder.Snapshot | internal/metering/ladder.go:130-140 | Returns what is held, empty for an unknown user |
| QuotaLadders.QuotaLadder.Attribute | internal/metering/ladder.go:169-203 | Splits and deducts in one step and returns the rows; an unknown user's traffic is all overflow |
| QuotaLadders.QuotaLadder.Reconcile | internal/metering/ladder.go:207-219 | Overwrites one counter and reports whether the subscription was held |
| QuotaLadders.QuotaLadder.Reset | internal/metering/ladder.go:228-243 | Zeroes one counter, records the epoch and the aligned instant, and reports whether the subscription was held |
| LadderRuns.ReachablePrepared | internal/metering/ladder.go:88-105 | After every run of calls every held set is prepared |
| LadderRuns.StepMovesCounter | internal/metering/ladder.go:52-243 | One call either installs a counter's value, or adds what the rows it emits say against the current period |
| LadderRuns.CacheAgreesWithLedger | internal/metering/ladder.go:17-243 | After every run a held counter is the value last installed plus the sum of the rows emitted for it since whose bucket counted at the time |
| LadderRuns.SyncKeepsCounters | internal/metering/ladder.go:58-86 | On every reachable ladder Sync moves no held counter, takes over everything else, and holds exactly what it is given |
| LadderRuns.OtherUsersUntouched | internal/metering/ladder.go:52-243 | A call on one user changes no other user's set |
| LadderRuns.EmittedSumsToBilled | internal/metering/ladder.go:166-182 | The rows of a flush sum to what was billed, whoever the user is |
| LadderRuns.FlushNeverOverdraws | internal/metering/ladder.go:182-202 | On every reachable ladder a flush wraps no sum, lifts no counter above its allowance, leaves one already above it, and changes only counters |
| LadderRuns.NoRunOverdraws | internal/metering/ladder.go:169-203 | Through any run of flushes of any users from any reachable ladder a counter only grows, never past its allowance, and nothing else changes |
| LadderRuns.ResetSplitsBuckets | internal/metering/ladder.go:184-243 | After a reset any run of flushes of earlier buckets leaves the fresh counter at zero |
| LadderLives.ResetStartsPeriod | internal/metering/ladder.go:184-243 | After a reset and any run of flushes the counter is the sum of the rows written for the subscription in buckets that end after the reset; epoch and aligned instant are recorded |
| LadderLives.HeldIff | internal/metering/ladder.go:52-126 | After any run a user is held exactly if a Rebuild or Sync brought them in and no Drop came later |
| LadderLives.DroppedPaysForNothing | internal/metering/ladder.go:118-182 | Once dropped, until a Rebuild or Sync of theirs, a user has no entries and every flush is one overflow row of the whole amount |
| LadderLives.RebuildInstallsGiven | internal/metering/ladder.go:43-56 | Rebuild holds exactly what it is given, with the counters it came with |
| LadderLives.ReconcileSetsCounter | internal/metering/ladder.go:205-219 | Reconcile puts the value on the one counter it names and changes nothing else |
| Batching.BatchesAddUp | internal/metering/ladder.go:161-203 | After any list of calls for one counted bucket, counters, row totals and overflow are those of the sum |
| Batching.CutsAgree | internal/metering/ladder.go:161-203 | Any two ways to cut or order the same sum agree, and overflow what exceeds the active availability |
| Batching.InterleavingsAgree | internal/metering/ladder.go:161-203 | Every interleaving of the same calls on many users leaves the same ladders and emits the same row totals, per user and subscription, overflow included |
| Batching.CuttingIsHarmlessIff | internal/metering/ladder.go:184-203 | Cutting never changes the overflow exactly when no subscription with room was reset after the bucket |
| Batching.EntitledUntilDrained | internal/domain/reset.go:105-107 | Along counted flushes of a bucket entitlement is lost exactly when the billed sum reaches the initial availability |
| Optimality.SoonestFirstIsOptimal | internal/domain/quota.go:69-123 | At every point of every run the ladder has lost no more to overflow than any strategy charging active subscriptions within their allowance |
| Optimality.OptimalIffSoonestFirst | internal/domain/quota.go:69-123 | For any list order that is so, on runs of five-minute buckets, exactly when no entry with room stands before one that is gone in an earlier bucket; on runs at any instants, before one that expires sooner |
| Optimality.DeductionOrderOptimalIff | internal/domain/quota.go:69-123 | For packs and one primary in deduction order it is so, on runs of five-minute buckets, exactly when the primary is not gone in an earlier bucket than a pack with room; on runs at any instants, when it does not expire sooner |
| Optimality.PackFirstCanLose | internal/domain/quota.go:102-123 | A primary that lasts one bucket and a permanent pack, on which the order loses a byte over two consecutive buckets |
| Buckets.AlignBucketIsFloor | internal/domain/reset.go:26-28 | AlignBucket is the greatest bucket boundary not after its argument |
| Buckets.AlignBucketIdempotentMonotone | internal/domain/reset.go:26-28 | Aligning is idempotent and monotone |
| Buckets.CountsIffEndsAfterReset | internal/domain/reset.go:85-97 | A bucket counts exactly if there was no reset or some of its five minutes lie after it |
| Buckets.BucketIsNotSplit | internal/domain/reset.go:85-97 | Two instants of one bucket are counted alike against any reset |
| Calendar.YearOfContains | internal/domain/reset.go:49-65 | The year read from a day contains the day |
| Calendar.MonthOfIsUnique | internal/domain/reset.go:49-65 | A day lies in exactly the month read from it |
| Calendar.DateRoundTrip | internal/domain/plan.go:145-151 | Reading a date and building it again gives the local midnight |
| Calendar.AddDaysIsDuration | internal/domain/plan.go:186 | Under a fixed offset adding days adds that many times 24 hours, in any location |
| Calendar.MonthLengths | internal/domain/reset.go:78 | The months have 30, 31 and, for February, 28 or 29 days |
| ResetSchedule.MonthlyAnchorIsAnchor | internal/domain/reset.go:77-83 | The anchor is local midnight on the day clamped to the month's length |
| ResetSchedule.NextResetIsLeastAnchor | internal/domain/reset.go:53-68 | monthly_signup yields the least anchor strictly after now, on a bucket boundary |
| ResetSchedule.ResetsVisitEveryMonth | internal/domain/reset.go:53-68 | Following resets hits every later calendar month exactly once, on the clamped signup day |
| ResetSchedule.NextResetMonotone | internal/domain/reset.go:40-73 | Under every policy and every offset a later now never has an earlier reset |
| ResetSchedule.MonthlyFirstIsSignupOnFirst | internal/domain/reset.go:48-68 | monthly_1st is monthly_signup for a signup on the first, under every offset |
| ResetSchedule.ResetsAreAheadIff | internal/domain/reset.go:30-68 | Every reset lies ahead of now exactly for offsets that are whole numbers of buckets |
| ResetSchedule.EastResetsEarlier | internal/domain/reset.go:34-68 | A timezone east of UTC resets as UTC does, earlier by its offset |
| ResetSchedule.NoScheduleIsZeroTime | internal/domain/reset.go:39-72 | Policies without a schedule give the zero time |
| Plan.FloorDivIsFloorIff | internal/domain/plan.go:261-267 | floorDiv is the mathematical floor for all signs but for the one quotient an int64 cannot hold |
| Plan.CeilDivIsCeilIff | internal/domain/plan.go:270-276 | ceilDiv is the mathematical ceiling for all signs but for that quotient |
| Plan.RemainingDaysCountsDates | internal/domain/plan.go:141-158 | The count is the difference of local dates, never negative, up to what a duration can hold |
| Plan.RemainingDaysInZone | internal/domain/plan.go:126-158 | Days are counted between the dates of the billing timezone |
| Plan.ProrateNets | internal/domain/plan.go:222-253 | A prorated change nets the new worth of the days that remain rounded down less the old worth rounded up, as a charge or a credit, never both, exactly while that net fits either way, as nonnegative prices make it; the expiry is kept |
| Plan.ProrateFavoursTheUser | internal/domain/plan.go:162-165 | A prorated change nets at most the exact difference and stays within two minor units of it |
| Plan.ProratedAllowance | internal/domain/plan.go:240-245 | The prorated allowance is short of its exact share by less than one byte, by nothing exactly when the division is exact |
| Plan.DenyIsLateReset | internal/domain/plan.go:176-193 | deny refuses until expiry, forever without one, and is then reset |
| Plan.RefusedIff | internal/domain/plan.go:166-258 | Every refusal and exactly when it is given |
| PlanRuns.ProratesTelescope | internal/domain/plan.go:222-253 | Along any path of prorated changes with the same days left the nets telescope |
| PlanRuns.OneDaySameDaysLeft | internal/domain/plan.go:141-158 | Changes on one local day find the same days left |
| PlanRuns.CycleNetsRounding | internal/domain/plan.go:222-253 | A cycle of n such changes nets the user minus the number of inexact divisions, between -n and 0 |
| PlanRuns.RemainingInvertsAddDays | internal/domain/plan.go:141-158 | Right after a purchase the days left are the days bought |
| PlanRuns.ResetThenProrateIsNeutral | internal/domain/plan.go:185-253 | A reset purchase prorated at once to the same plan costs nothing and changes nothing, up to the days a duration holds; beyond them it shrinks any allowance |
| PlanRuns.OneStack | internal/domain/plan.go:195-220 | A stack sells the new plan, whichever was held: its allowance added, its price charged, its period appended to what is left or to now |
| PlanRuns.StacksAddUp | internal/domain/plan.go:195-220 | Any run of stacks at one instant on any plan adds the allowances, prices and periods of the plans bought and carries the counter |
| PlanRuns.StacksNeverShorten | internal/domain/plan.go:208-219 | Stacks only lengthen a subscription, past now even after a lapse, and keep a permanent one permanent |
| PlanRuns.StacksCommute | internal/domain/plan.go:195-220 | The order of stacks at one instant does not matter, to the result or to a refusal |
| Traffic.AcceptedIff | internal/domain/traffic.go:54-67 | Exactly which reports are accepted, and which error the others get |
| Traffic.BillFollowsTermsIff | internal/domain/traffic.go:69-81 | The bill is the product in hundredths rounded down exactly as long as the product fits an int64 |
| Traffic.AcceptedBillFollowsTerms | internal/domain/traffic.go:32-81 | On an accepted report no step wraps at any rate |
| Traffic.BatchGap | internal/domain/traffic.go:79-81 | Over n accepted reports the rounding withholds between 0 and 99n hundredths |
| Traffic.BatchesFavourTheUser | internal/domain/traffic.go:71-81 | n reports billed apart cost at most 99n/100 bytes, so at most n - 1, less than their total, and never more |
| Traffic.GapIsReached | internal/domain/traffic.go:71-81 | For every n, n one-byte reports at 0.99x reach the gap of 99n/100 |
| ClientVersion.ParseVersion | internal/subplane/detect.go:171-215 | The scanning loops terminate and return what the scan reads |
| ClientVersion.AtLeastExactly | internal/subplane/detect.go:131-154 | Versions compare as their numbers do, and an unknown one passes no gate |
| ClientVersion.ScanFindsFirst | internal/subplane/detect.go:172-214 | Despite its jumps the scan reads the run at the first accepting position |
| VersionText.ParsePrinted | internal/subplane/detect.go:171-215 | A printed version reads back after every digit-free prefix it may follow and before every suffix that ends it; what does not fit an int reads as zero |
| VersionText.ParseNumbersAfter | internal/subplane/detect.go:171-215 | Any numbers with dots between them read back as the first three, missing ones as zero, after any prefix none of whose positions is accepted, whatever ends the run |
| VersionText.ReadNumbers | internal/subplane/detect.go:196-212 | A run reads as its first three numbers, up to the first gap or the first number that does not fit |
| VersionText.CutRunIsSkipped | internal/subplane/detect.go:190-195 | A run that a letter cuts off is no version |
| VersionText.GluedRun | internal/subplane/detect.go:176-185 | A run glued to a name loses its first digit only: it is passed over exactly if it has no second |
| Detect.ContainsNeedle | internal/subplane/detect.go:222-241 | Finds a needle exactly when some occurrence, overlapping ones included, is delimited as asked |
| Detect.DetectUA | internal/subplane/detect.go:249-264 | The loops return what the first matching rule makes of the lowercased text |
| Detect.DetectedIsFirstMatch | internal/subplane/detect.go:249-264 | The client is that of the least rule that matches |
| Detect.FloorReachedIff | internal/subplane/detect.go:73-78 | The bare clash floor is reached exactly when no needle of an earlier rule occurs |
| ClientRules.DetectedByText | internal/subplane/detect.go:44-264 | By text alone: the dialect follows the names in their order, a version is read only from a text that names a core, every other is unknown, and exactly the texts that name no client are reported |
| ClientRules.OfferedExactly | internal/subplane/capability.go:75-120 | Which protocols each client is offered, and from which release of its core |
| ClientRules.OfferedByText | internal/subplane/capability.go:75-120 | From the text to the decision, for every User-Agent and every protocol |
| ClientRules.MihomoWrapperIsUnknown | internal/subplane/detect.go:52-61 | A User-Agent that names a mihomo wrapper and no core has no known version and is offered only what needs none |
| ClientRules.MihomoWrappersAreUnknown | internal/subplane/detect.go:52-61 | So are FlClash, CMFA and clash-verge at every version of theirs |
| ClientRules.ArchitectureIsRead | internal/subplane/detect.go:176-185 | sing-box (arm64) is read as release 4 and offered AnyTLS, whatever version follows |
| ClientRules.CaseNeverMatters | internal/subplane/detect.go:250 | User-Agents that differ in case only are the same client |
| ClientRules.RunTogetherIsNoMatch | internal/subplane/detect.go:26-42 | A word needle is not found inside letters and digits run together |
| ClientRules.ZeroClientIsInert | internal/subplane/capability.go:107-110 | The zero client is offered nothing |
| Capability.SupportsMonotone | internal/subplane/capability.go:111-120 | A version that is not older is offered at least the same protocols, under every profile |
| ClientGate.SingBoxDetected | internal/subplane/detect.go:95-264 | sing-box/M.m.p and any suffix that ends the version is sing-box with the version it prints, exactly when no earlier rule finds its needle |
| ClientGate.PlainSuffixMeetsNoEarlierRule | internal/subplane/detect.go:95-111 | A suffix without the letters c, h and k, such as the platform in brackets, holds no needle of an earlier rule |
| ClientGate.MihomoDetected | internal/subplane/detect.go:95-264 | Every mihomo/M.m.p is mihomo with the version it prints, whatever follows |
| ClientGate.CompoundMihomoDetected | internal/subplane/detect.go:165-264 | A User-Agent with mihomo/M.m.p behind any prefix is mihomo, with the printed version if no position of the prefix is accepted and with what stands at the first accepted one otherwise |
| ClientGate.WrapperVersionIsRead | internal/subplane/detect.go:52-61 | A wrapper that names its version before mihomo is given its own version as the core's |
| ClientGate.WrapperVersionOpensGate | internal/subplane/detect.go:52-61 | A wrapper at 2.0 around mihomo 1.18 is offered AnyTLS |
| ClientGate.SingBoxAnyTLSIff | internal/subplane/capability.go:75-120 | From the text to the decision, suffix included: sing-box is offered AnyTLS exactly from 1.12 on |
| ClientGate.MihomoGatesIff | internal/subplane/capability.go:75-120 | mihomo is offered AnyTLS exactly from 1.19, Hysteria2 and TUIC exactly from 1.15 on |
| ClientGate.UpgradeKeepsProtocols | internal/subplane/capability.go:75-120 | Raising the printed version within the int range removes no protocol |
| ClientGate.OverlongVersionLosesAnyTLS | internal/subplane/detect.go:198-202 | A major version past the int range is read as unknown and loses AnyTLS |

## Left out

- The lock itself: every method of the ladder is one atomic step, and runs interleave whole steps. Two processes are not modelled; the code claims nothing about them.
- `Users` of the ladder: the keys of the map in no particular order.
- Copying of slices and timestamps (`copyQuota`): sequences are values, so no aliasing between a snapshot and the ladder can be expressed.
- The algorithm inside `sort.SliceStable`: the model sorts by insertion, in place; `OrderedIsUnique` and `SortedKeepsTies` make any stable sort agree with it.
- Daylight saving and real timezone data: a location is one fixed offset. Which side of a skipped midnight Go picks is not specified.
- The range of `time.Time`: instants are unbounded.
- Non-ASCII User-Agents: `ToLower` maps letters A to Z only.
- `strconv.Atoi` with a sign: the scanner only ever hands it digits.
- Plan.ProrateNets: prices a change only where the two products fit an int64, which `ApplyChange` does not check; what it charges once one of them has wrapped is not described.
- Plan.ProratedAllowance: the same for the product of the allowance.
- Detect.ContainsNeedle: asks that an empty word needle has a delimited position; without one the original slices past the end of the text. No rule holds an empty needle.
- `FilterProtocols`, `Resolve` and `parseProfile`: plain filters and fixed precedence.
- Orders, periods, money, events, HTTP, secrets and the SQL migrations: tables, wiring and libraries that would add only easy members.
