# Verified model of the VPS Advisor network discovery platform

The platform watches hosting providers from a fleet of volunteer workers. A builder turns BGP
announcements into routing snapshots: it filters out address space that must not be probed,
accounts every provider's address space by country, picks probe targets, and publishes the
result through an artifact store. A coordinator hands probe assignments to workers under
leases, settles their observations into trust-weighted verdicts, and follows approval decisions
made on the VPS Advisor site.

This project models the logic of those parts in Dafny and proves what they are meant to keep:

- **Address space** (`Cidr`, `Accounting`, `Sweep`, `GeoDatabase`, `Bogon`, `Reserved`,
  `Distribution`). The sort-and-stack sweep over nested announcements counts every distinct address (or /64 network)
  once, in the country it is in. The specification is a set of units and a unit-to-country
  function; the sweep is proved against it, with the laminar law of CIDR blocks, the stack
  invariant, and the bounds of the unsigned 64-bit counters.
- **Leases** (`Scheduling`, `LeaseProtocol`, `LeaseCalls`, `Reconciliation`, `SharedGroups`,
  `Coordinator`). Lease calls, release calls and the separately committed statements of a
  scheduling pass, interleaved in any order and stopped anywhere, keep one holder per assignment,
  and the live leases on a target are held by as many distinct workers, never more than the
  configured redundancy. The database itself only guarantees one live lease per pair of
  assignment and worker.
- **Consensus, trust, status** (`Consensus`, `Trust`, `Status`). Votes, verdicts, their relation
  across regions, the feedback of agreement into voting weight, and the anomaly state machine.
- **Decision feed** (`Lifecycle`, `DecisionFeed`). Any schedule of polls, failures, restarts and
  crashes amounts to one pass over the feed.
- **Targets, publication, replay** (`Targets`, `Publication`, `Replay`). Round-robin selection
  under two caps, publication steps that may stop anywhere, and the replay window.

`Basics` holds what the modules share. Code that changes state is modelled by classes and
methods (`Tables`, `Poller`, `Engine`, `Publisher`, `Middleware`, and the loops of the
accounting), each proved against a function or relation over values; the theorems about runs
are about those functions and relations. SQL statements are functions or relations over maps.
Reals stand for floating-point numbers. `dafny verify dfyconfig.toml` checks the project.

Where the code and its comments differ, the model follows the code:

- `IsBogon` is described as "inside (or equals) non-global space" but tests overlap. A prefix that
  merely covers a listed block is dropped too; `Bogon.BogonClosure` states the exact condition.
- `countryUnits` is described as returning a map that always sums to `units(p)`, so that no space
  is lost. On a prefix of length zero `units` saturates, and the IPv6 pieces of such a prefix can
  add up to 2^64, which wraps to zero. `Accounting.CountryUnits` shows that the map counts the
  prefix's units if and only if its length is not zero, and `Bogon.DefaultRouteIsBogon` that the
  filter never lets such a prefix through.
- The decision cursor is described as advancing only past applied decisions. A later decision that
  takes moves it past an earlier one that did not: `DecisionFeed.RereadExactly` states when a
  decision is read again, `DecisionFeed.StrandedApproval` gives a feed where one is not.
- `RollbackTo` reads the status of a snapshot without checking it.
  `Publication.RollbackToHeldBuild` follows that to a current version that is not in the store,
  `Publication.CheckedRunSafe` shows that checking it would be enough, and
  `Publication.RollbackPointerExactly` states exactly which unchecked rollbacks are harmless.

## Model

| member | source | states |
|---|---|---|
| `Cidr.Announcement.Masked` | internal/builder/distribution.go:188 | masking an announced address gives a valid block that contains the address |
| `Cidr.MaskedBase` | internal/builder/distribution.go:188 | masking the first address of a block to its length gives the block back |
| `Cidr.Laminar` | internal/builder/distribution.go:120-121 | two blocks of one family that share an address are nested, the shorter prefix around the longer |
| `Cidr.EnclosesIsLeads` | internal/builder/distribution.go:147-149 | the sweep's test (contains the first address, not longer) holds exactly when the leading bits agree |
| `Cidr.LeadsCovers` | internal/builder/distribution.go:147-149 | a block whose bits lead another's covers that block's whole address interval |
| `Cidr.UnitMeansAllAddresses` | internal/builder/distribution.go:45-47 | a unit is counted for a prefix exactly when every address of the unit lies in the prefix, so IPv6 prefixes longer than /64 hold none |
| `Cidr.UnitSetSize` | internal/builder/distribution.go:64-76 | number of units of any prefix, by length |
| `Accounting.WrapIsRemainder` | internal/builder/distribution.go:48-49 | what an unsigned 64-bit counter holds of a number is its remainder by 2^64 |
| `Accounting.UnitsCountsSpace` | internal/builder/distribution.go:64-76 | the weight equals the number of units in the prefix if and only if the prefix is not of length zero |
| `Accounting.CountryUnits` | internal/builder/distribution.go:81-113 | for every GeoIP answer consistent with one unit-to-country function, the map counts the units of the prefix in each country, unplaced ones under ZZ, if and only if the prefix is not of length zero; its keys are then exactly the countries reached; the defensive clamp never fires |
| `Sweep.LeadsBetween` | internal/builder/distribution.go:127-132 | in sweep order, whatever encloses a later prefix encloses everything sorted between them |
| `Sweep.ExclusiveIsMinusMoreSpecific` | internal/builder/distribution.go:115-118 | what a prefix is left with is its own space minus that of every strictly more specific announcement |
| `Sweep.Conservation` | internal/builder/distribution.go:22-25 | exclusive counts summed over all prefixes equal, country by country, the distinct units of the union, for any set without a prefix of length zero |
| `Sweep.Subtract` | internal/builder/distribution.go:155-161 | the difference where the parent has more, nothing otherwise; the entries deleted are exactly those the child takes all of |
| `Sweep.ExactlyTaken` | internal/builder/distribution.go:156-160 | where the parent owns all of the child's space the result is the exact difference, and an entry is deleted only on equality |
| `Sweep.ParentOwnsChild` | internal/builder/distribution.go:120-124 | when its turn comes, the direct parent still owns all of the child's space, in every country |
| `Sweep.PopKeepsChain` | internal/builder/distribution.go:146-152 | popping a prefix that does not enclose the current one loses no prefix that encloses a later one |
| `Sweep.ChainLeadsCurrent` | internal/builder/distribution.go:144-152 | after popping, the stack holds exactly the earlier prefixes enclosing the current one, and its top is the direct parent |
| `Sweep.PushKeepsChain` | internal/builder/distribution.go:163 | pushing the current prefix keeps the stack invariant |
| `Sweep.SweepStep` | internal/builder/distribution.go:153-162 | taking the child's space from the direct parent alone makes every earlier prefix's count exclusive of it |
| `Sweep.SweepStack` | internal/builder/distribution.go:144-164 | the pass leaves each prefix that is not of length zero with the count of its exclusive space in every country, whatever else is announced, and no prefix with a country its own map lacks |
| `Sweep.ExclusiveUnits` | internal/builder/distribution.go:125-168 | the array ends sorted and is a rearrangement of its input; both results are right for it, index by index, at every prefix that is not of length zero |
| `GeoDatabase.RangesAnswer` | internal/routing/geo/geo.go:96-133 | splitting a query at the record boundaries of a binary trie gives pieces inside the query, pairwise apart, each wholly in one country, leaving only unplaced units |
| `GeoDatabase.DatabaseIsConsistent` | internal/routing/geo/geo.go:96-133 | every database answers all queries consistently with one unit-to-country function, which is what the accounting assumes |
| `GeoDatabase.NoDatabaseIsConsistent` | internal/builder/distribution.go:54-59 | without a database everything is unplaced, and the accounting's assumption still holds |
| `Bogon.OverlapsIsSharing` | internal/routing/bogon/bogon.go:33-37 | the overlap test holds exactly when some address lies in both blocks |
| `Bogon.BogonClosure` | internal/routing/bogon/bogon.go:8-39 | a prefix passes the filter if and only if it shares no address with a listed block and, for IPv6, lies wholly inside 2000::/3, although only overlap with 2000::/3 is tested |
| `Bogon.DefaultRouteIsBogon` | internal/routing/bogon/bogon.go:29-39 | no prefix of length zero passes the filter |
| `Bogon.TargetInsidePrefix` | internal/builder/builder.go:388-401 | network address plus one lies inside its prefix and in no listed block, for every prefix that passed the filter and is not flagged as too long |
| `Reserved.FilterExactly` | internal/routing/bogon/bogon.go:8-39 | a prefix passes the filter if and only if every one of its addresses is outside the reserved ranges, written out from first to last IPv4 address and by leading groups of IPv6 addresses, and an IPv6 address is between 2000:: and 3fff:ffff... |
| `Reserved.TooLongExactly` | internal/routing/bogon/bogon.go:41-49 | a prefix is flagged as too long exactly when it has fewer than 256 IPv4 addresses, or fewer than 65536 IPv6 networks of /64 |
| `Distribution.Group` | internal/builder/distribution.go:179-189 | one group per provider and family, holding exactly the distinct masked prefixes announced, none for an empty provider |
| `Distribution.SweepGroup` | internal/builder/distribution.go:193-198 | for one group without a prefix of length zero, exclusive counts add up to the distinct space per country and key counts to the prefixes reaching into it; for any group, exclusive entries are of countries reached |
| `Distribution.AddGroup` | internal/builder/distribution.go:216-237 | adds the group's space and prefix counts to the right family's counters only, with unsigned 64-bit wrap-around, and creates exactly the rows of the countries reached |
| `Distribution.Distribute` | internal/builder/distribution.go:174-240 | for every provider and family without an announced prefix of length zero, and every country: distinct announced units located there (modulo the counter's width) and number of announced prefixes reaching into it; for all rows, no table has a row without a prefix counted in it, and providers are exactly those with announcements |
| `Distribution.OrderIndependent` | internal/builder/distribution.go:170-174 | two row lists with the same (provider, masked prefix) pairs list the same providers and give identical tables to each that announces no prefix of length zero, whatever the order, repetition, origin or map iteration |
| `Distribution.FilteredIsPlain` | internal/builder/builder.go:171-174 | rows that passed the filter announce no prefix of length zero, so all of their tables are right |
| `Distribution.FilteredSpaceBound` | internal/builder/builder.go:171-174 | all space that passes the filter fits in 2^61 units, however many prefixes announce it |
| `Distribution.FilteredIsExact` | internal/builder/builder.go:308-315 | for rows that passed the filter no counter wraps and the clamp to the signed range changes nothing: the stored number is the count |
| `Distribution.HalvesWrap` | internal/builder/distribution.go:222-226 | without the filter a counter can wrap: a provider announcing the two halves of the IPv6 space announces 2^64 units, and its table says zero where they are unplaced |
| `Scheduling.Config.WithDefaults` | internal/scheduler/scheduler.go:25-42 | every setting is positive afterwards; positive redundancy, floor and intervals are kept, missing ones become 3, 15 and 30, 60, 120; no interval is below the floor |
| `Scheduling.Config.Interval` | internal/scheduler/scheduler.go:89-92 | each priority class has its own interval, or the floor where that is longer |
| `Coordinator.TakeFirst` | internal/coordinator/measurement.go:101-105 | the claimed rows are the lowest ids of the candidates, as many as wanted or all |
| `Coordinator.Grant` | internal/coordinator/measurement.go:106-110 | each claimed assignment becomes leased under exactly one new lease of the worker; nothing else changes |
| `Coordinator.LeaseTransaction` | internal/coordinator/measurement.go:55-115 | renew, reap and claim together are one lease step of the protocol |
| `Coordinator.Tables.LeaseAssignments` | internal/coordinator/measurement.go:32-143 | bad capacity and pause change nothing; otherwise one lease step with the capped capacity, answered with exactly the leased assignments under a live lease of the caller: all it was newly granted and, from safe tables, all leased ones it already held and none that another worker holds; safe tables stay safe |
| `Coordinator.AnswersAreDisjoint` | internal/coordinator/measurement.go:116-122 | two workers asking on the same safe tables never get the same assignment |
| `Coordinator.Tables.GenerateReplicas` | internal/scheduler/scheduler.go:84-111 | every inserted row is open, of an eligible target, with that target's provider, group and interval; the rows inserted for a target are exactly its missing slots |
| `Coordinator.Tables.ReleaseAssignments` | internal/coordinator/measurement.go:145-165 | afterwards the caller holds none of the named assignments, those it held as leased are open, every other lease is untouched, and safe tables stay safe |
| `Coordinator.Tables.MarkDraining` | internal/scheduler/scheduler.go:57-67 | afterwards ineligible targets have no active replica and eligible ones have all they had; nothing is closed, and safe tables stay safe |
| `Coordinator.Tables.ReleaseDraining` | internal/scheduler/scheduler.go:71-77 | afterwards no draining assignment has a live lease, leases of other assignments stay live, and safe tables stay safe |
| `Coordinator.Tables.CloseDraining` | internal/scheduler/scheduler.go:78-82 | afterwards nothing is draining and active replicas are as before; safe tables stay safe if and only if no draining assignment had a live lease |
| `Coordinator.InsertReplicas` | internal/scheduler/scheduler.go:84-111 | for each eligible target exactly its missing slots are inserted, open, with the target's provider, interval and group |
| `Coordinator.Tables.Reconcile` | internal/scheduler/scheduler.go:54-114 | an uninterrupted pass is the four statements in order, with defaults applied; safe tables stay safe, and from at most the configured replicas per target each eligible target ends with exactly that many, any other with none |
| `LeaseProtocol.LeaseCallKeeps` | internal/coordinator/measurement.go:55-115 | a lease call keeps one holder per assignment, leased means held, and one replica of a group per worker |
| `LeaseProtocol.NextKeeps` | internal/coordinator/measurement.go:32-165 | every lease call, release call and scheduler statement, at any point of a pass, keeps the invariant |
| `LeaseProtocol.RunKeeps` | internal/scheduler/scheduler.go:54-114 | in every reachable state: at most one live lease per assignment, none on open or closed ones, exactly one on leased ones, no worker twice in a redundancy group, replicas of a target all in the group derived from it, and at most the configured number of replicas per target that are active or still leased |
| `LeaseProtocol.CloseNeedsRelease` | internal/scheduler/scheduler.go:71-82 | closing keeps the tables safe if and only if no draining assignment still has a live lease, so the order of the two statements matters |
| `LeaseProtocol.GroupHolders` | internal/coordinator/measurement.go:79-84 | k live leases in a redundancy group are held by k different workers, and k is at most the configured redundancy where the group belongs to one target alone |
| `LeaseProtocol.TargetHolders` | internal/scheduler/scheduler.go:84-110 | k live leases on replicas of a target, draining ones included, are held by k different workers, and k is at most the configured redundancy |
| `LeaseProtocol.RedundancyInEveryRun` | internal/scheduler/scheduler.go:50-53 | both at every point of every run, for every target and group |
| `SharedGroups.SharedGroupExceeds` | internal/scheduler/scheduler.go:105-106 | if two targets derive the same group, a run with redundancy one ends with two live leases in it |
| `SharedGroups.GroupBoundExactly` | internal/scheduler/scheduler.go:84-85 | with redundancy one, a group is bounded in every run if and only if it belongs to one target alone |
| `LeaseCalls.WorkConservation` | internal/coordinator/measurement.go:71-115 | a lease call never goes beyond the larger of previous holding and capped capacity; below capacity, every remaining open assignment is in a group the worker holds or in its own network |
| `LeaseCalls.ClaimsLowestFirst` | internal/coordinator/measurement.go:92-105 | whatever is still open below a newly claimed assignment is of a group the worker now holds, or in its own network |
| `LeaseCalls.LeaseCallEffect` | internal/coordinator/measurement.go:55-110 | the caller's live leases expire a full term from now, other workers' end exactly if expired and are otherwise untouched, new ones are never for a provider in the caller's own network |
| `LeaseCalls.ExpiredReopens` | internal/coordinator/measurement.go:61-67 | the assignment of any worker's expired lease is open again after the call, or claimed by the caller under a new lease |
| `Reconciliation.ReconcileExact` | internal/scheduler/scheduler.go:50-111 | after a pass with routing unchanged, interleaved with any worker calls, each eligible target has exactly the configured active replicas, any other none, and nothing is draining |
| `Reconciliation.ReconcileTwice` | internal/scheduler/scheduler.go:50-53 | a second pass in a row changes neither table |
| `Reconciliation.ReconcileIdempotent` | internal/scheduler/scheduler.go:50-53 | a pass over tables that are already exact changes nothing |
| `Consensus.VerdictMonotone` | internal/aggregate/aggregate.go:111-158 | with weights and responsive targets fixed, turning failed observations into successes never worsens the verdict over any set of targets, nor changes whether data suffices |
| `Consensus.VerdictsMonotone` | internal/aggregate/aggregate.go:111-158 | hence neither the global nor any regional verdict gets worse |
| `Consensus.ImprovedTarget` | internal/aggregate/aggregate.go:116-126 | nor does any single target go from up to down |
| `Consensus.VotesUpExactly` | internal/aggregate/aggregate.go:111-122 | a worker votes a target up if and only if it observed it and at least as many of its observations succeeded as failed |
| `Consensus.TargetUpExactly` | internal/aggregate/aggregate.go:120-133 | a target is up if and only if someone observed it and those who vote it up weigh at least as much as the others |
| `Consensus.RegionExactly` | internal/aggregate/aggregate.go:94-131 | a target counts for a region if and only if it is responsive, was observed and is recorded there, or nowhere and the region is ZZ |
| `Consensus.VerdictExactly` | internal/aggregate/aggregate.go:152-158 | with enough workers the verdict is decided by whether the up targets reach the two shares of all measured ones |
| `Consensus.WindowExtremes` | internal/aggregate/aggregate.go:94-158 | from the observations alone: with enough workers on one responsive target, all observations of responsive targets failed means outage, all succeeded means healthy, globally and in that target's region, whatever was observed of other targets |
| `Consensus.WorkerCountIsMax` | internal/aggregate/aggregate.go:134 | the worker count of a rollup is the maximum over its targets |
| `Consensus.GlobalInsufficient` | internal/aggregate/aggregate.go:127-158 | the global verdict is insufficient data if and only if every region's is |
| `Consensus.GlobalBetweenRegions` | internal/aggregate/aggregate.go:127-158 | when every region has data, the global verdict is neither worse than all regional ones nor better |
| `Consensus.SharedVerdictIsGlobal` | internal/aggregate/aggregate.go:127-158 | a verdict shared by all regions is the global verdict |
| `Trust.ScoreBelowOne` | internal/trust/trust.go:31-63 | every score lies in [0, 1), so the upper clamp is never reached |
| `Trust.NewcomerIsCapped` | internal/trust/trust.go:20-30 | an unapproved worker without measurements never scores above 0.45, and scores just that with a fresh heartbeat and a clean record |
| `Trust.EventCosts` | internal/trust/trust.go:57-62 | one more security event takes a tenth off a positive score, down to zero, until five are counted, and nothing after that |
| `Trust.HeartbeatCosts` | internal/trust/trust.go:44-47 | a heartbeat within an hour is worth half of one within five minutes, an older one or none is worth nothing |
| `Trust.TwoWeeks` | internal/trust/trust.go:25-26 | tenure is worth half after fourteen days |
| `Trust.ScoreMonotone` | internal/trust/trust.go:20-30 | better evidence in heartbeat, tenure, agreement and security events never lowers a score |
| `Trust.TenOutweighOne` | internal/aggregate/aggregate.go:116-119 | any set of workers outweighs any set a tenth its size |
| `Trust.BoundedInfluence` | internal/aggregate/aggregate.go:116-126 | a dissenting tenth of a target's voters never overturns its vote, in either direction |
| `Trust.NineCanLose` | internal/trust/trust.go:35-36 | ten is the bound: one long-serving worker can outweigh nine without a score |
| `Trust.WorkerAgreementInUnit` | internal/aggregate/aggregate.go:194-200 | a worker's agreement with the settled consensus lies in [0, 1] |
| `Trust.AgreementExactly` | internal/aggregate/aggregate.go:194-200 | agreement on a target is the share of successes where the consensus is up and of failures where it is down |
| `Trust.AgreementExtremes` | internal/aggregate/aggregate.go:194-200 | a worker whose every observation agrees with the consensus has agreement one, one that always disagrees has zero |
| `Trust.AgreementGrows` | internal/aggregate/aggregate.go:194-200 | moving closer to the same consensus on every target never lowers a worker's agreement |
| `Trust.FiguresInUnit` | internal/aggregate/aggregate.go:135-160 | dissent and confidence lie in [0, 1] |
| `Trust.ConfidenceExtremes` | internal/aggregate/aggregate.go:135-160 | with twice the required workers, unanimous targets make confidence one and evenly split ones zero |
| `Trust.ConfidenceAtMinimum` | internal/aggregate/aggregate.go:159-160 | with just the required workers confidence is half of what the dissent leaves |
| `Trust.RunKeeps` | internal/trust/trust.go:31-71 | in every run of window settling and scoring, scores stay in [0, 1), agreements in [0, 1] and voting weights in [0.1, 1) |
| `Trust.InfluenceBoundedInEveryRun` | internal/aggregate/aggregate.go:174-201 | at no point of any such run can a dissenting tenth overturn a target's vote |
| `Status.Engine.HandleTransition` | internal/aggregate/aggregate.go:385-411 | if the open anomalies were right for the global verdicts so far, they are right with the new verdict added; recorded anomalies are never rewritten, except to be resolved now |
| `Status.Engine.RollupStatus` | internal/aggregate/aggregate.go:274-310 | upserts every region's entry, and moves anomalies only on a change of the global verdict read before the upserts |
| `Status.SinceIsRunStart` | internal/aggregate/aggregate.go:291-303 | after any sequence of rollups, `since` of each region is the start of the window at which its current unbroken run of equal verdicts began |
| `Status.AnomaliesTrackVerdicts` | internal/aggregate/aggregate.go:308-310 | after any sequence of rollups, the open anomalies are: one, dated by the first alarm since which nothing was healthy, if there is such an alarm; otherwise none |
| `Status.OutageHasOneAnomaly` | internal/aggregate/aggregate.go:385-411 | a global outage means exactly one open reachability anomaly, healthy means none, and there are never two |
| `Lifecycle.ReplayConverges` | internal/registry/registry.go:108-142 | whatever was applied before out of the same feed, in any order, one full application leads to the same state as from the start |
| `Lifecycle.SuffixReplay` | internal/registry/registry.go:316-329 | replaying any suffix of an applied feed leaves the final state alone |
| `Lifecycle.LegalMoves` | internal/registry/registry.go:108-114 | nobody leaves retirement or returns to pending and only active workers are quarantined; any other change of state is legal |
| `DecisionFeed.Poller.ApplyDecision` | internal/registry/registry.go:318-329 | succeeds if and only if the worker is registered and in the decided state afterwards, so a state already in force is accepted; no other worker is touched |
| `DecisionFeed.TakesExactly` | internal/registry/registry.go:325-328 | a decision takes if and only if it is in force right after its turn, and one in force before its turn takes without change |
| `DecisionFeed.Poller.SyncDecisions` | internal/coordinator/advisorsync.go:124-150 | a failed pull changes nothing; otherwise the batch after the cursor is applied in order and the cursor moves to the last decision that took, so that it ends at the last decision of the batch if that is in force |
| `DecisionFeed.PollSettles` | internal/coordinator/advisorsync.go:132-149 | one completed poll puts every registered worker where a single pass over the whole feed would, from any reachable state, also after a crash in the middle of a poll |
| `DecisionFeed.RunKeeps` | internal/coordinator/advisorsync.go:192-201 | over every run of appends, polls, failed polls, restarts from a zero cursor and crashes, each worker's state is the fold of what was applied, all of it came from the feed, and the cursor never passes what was read |
| `DecisionFeed.AnyScheduleRefinesOneFold` | internal/coordinator/advisorsync.go:168-201 | right after any completed poll of any run, each registered worker's state is one fold of the feed over its original state |
| `DecisionFeed.RereadExactly` | internal/coordinator/advisorsync.go:143-147 | the next poll reads a decision again if and only if neither it nor any later one of its batch took |
| `DecisionFeed.StrandedApproval` | internal/coordinator/advisorsync.go:133-148 | a concrete feed in which the approval of a not yet registered worker is behind the cursor when the worker registers, so that the next poll leaves it pending |
| `Targets.TopSize` | internal/builder/builder.go:410-426 | the rows numbered up to n in an order are exactly n rows, or all |
| `Targets.DeduplicatedAddresses` | internal/builder/builder.go:402-409 | one candidate per address remains |
| `Targets.EveryAddressKept` | internal/builder/builder.go:403-408 | every candidate address keeps a target, and no candidate with that address is shorter, or as long and seen by more peers, or equal in both with a lower prefix id |
| `Targets.CapsRespected` | internal/builder/builder.go:409-426 | both caps hold, and the provider's budget is used up while eligible candidates remain |
| `Targets.BestOfCountryChosen` | internal/builder/builder.go:409-414 | a country's picks are its best-ranked candidates |
| `Targets.Fairness` | internal/builder/builder.go:377-381 | if one country gets k targets, every other gets at least k-1 unless it runs out of candidates or reaches its cap |
| `Targets.EveryCountryServed` | internal/builder/builder.go:380-382 | every country is served when the budget covers the number of countries |
| `Targets.AddressChosenOnce` | internal/builder/builder.go:383-427 | over the whole query no address is chosen twice, not even for two providers |
| `Targets.DerivedServesCountries` | internal/builder/builder.go:383-427 | for the query with its configured caps (country cap falling back to the provider cap): the budget holds, a positive country cap holds, and every deduplicated country is served when the budget covers them |
| `Targets.DerivedBestFirst` | internal/builder/builder.go:383-427 | with a derived target, every deduplicated candidate of its country that is shorter, or as long and seen by more peers, or equal in both with a lower address, is derived too |
| `Targets.DerivedInTurn` | internal/builder/builder.go:415-420 | across countries, a candidate with fewer such others ahead of it at home is taken first, and with equally many the shorter, then the more widely seen, then the lower address |
| `Targets.DerivedFillsUp` | internal/builder/builder.go:383-427 | short of the provider's budget every country is filled up to its cap, which is the budget where none is configured |
| `Targets.DerivedFairly` | internal/builder/builder.go:377-427 | if one country gets k derived targets, every other gets at least k-1, unless it runs out of deduplicated candidates or reaches its cap |
| `Targets.DerivedIsProbeable` | internal/builder/builder.go:388-401 | every derived target lies inside its own prefix and in no block that must not be probed |
| `Publication.Publisher.Publish` | internal/artifact/publisher.go:31-100 | artifact and manifest are stored and recorded; status and pointer stay |
| `Publication.Publisher.PublishSnapshot` | internal/builder/builder.go:474-491 | afterwards the snapshot is the only published one, whatever else was published is superseded, and held builds stay held |
| `Publication.PointKeeps` | internal/artifact/publisher.go:139-146 | writing current.json, after a publication or a rollback, keeps the invariant |
| `Publication.Publisher.RollbackTo` | internal/artifact/publisher.go:151-188 | fails without change for unknown versions and those without prefix rows; otherwise flips statuses and pointer, keeping the invariant when the version is in the store, as it is when it was released before |
| `Publication.Publisher.Prune` | internal/artifact/publisher.go:193-258 | exactly the newest `retain` superseded snapshots, or all if there are fewer, are spared; every other superseded one is older than these and loses its prefix rows, and its store objects where deletion works; nothing else changes |
| `Publication.Publisher.Run` | internal/builder/builder.go:122-164 | a whole build in the source's order keeps the invariant and ends with the new snapshot recorded, the only one published, in the store and named by current.json |
| `Publication.NextKeeps` | internal/builder/builder.go:140-160 | every single step of a build, rollback or prune, and stopping anywhere, keeps the invariant |
| `Publication.RunKeeps` | internal/artifact/publisher.go:139-258 | the invariant holds throughout every run whose rollbacks go to stored versions |
| `Publication.PublicationSafe` | internal/artifact/publisher.go:27-30 | at every point of such a run at most one snapshot is published, none that lost its rows to a prune is, and current.json refers to a version whose manifest and artifact are in the store |
| `Publication.RetainedAreWhole` | internal/artifact/publisher.go:190-197 | the newest `retain` superseded snapshots were never touched by any prune, interrupted or not |
| `Publication.CheckedIsGuarded` | internal/artifact/publisher.go:151-166 | a rollback to a snapshot that was released before, or whose artifact was recorded, always goes to a stored version |
| `Publication.CheckedRunSafe` | internal/artifact/publisher.go:148-188 | in every run whose rollbacks go to snapshots released before or recorded: at most one published, none that lost its rows to a prune, and current.json refers to a stored version, at every point |
| `Publication.RollbackPointerExactly` | internal/artifact/publisher.go:151-188 | after any run of checked rollbacks, one more rollback without the check leaves current.json naming a stored version if and only if its target was released before or the upload of its build had finished |
| `Publication.RollbackToHeldBuild` | internal/artifact/publisher.go:152-166 | a concrete run in which a build stopped before its upload is rolled back to and current.json refers to nothing |
| `Replay.Middleware.SeenNonce` | internal/registry/registry.go:271-278 | reports and records a nonce; a recorded one keeps its time |
| `Replay.Middleware.Signed` | internal/coordinator/server.go:152-200 | which of the four outcomes a request gets, in the order signature and time (at most two minutes to either side of the clock), nonce, lifecycle state; the nonce is recorded exactly on the last two; each call is a step of the replay machine |
| `Replay.WindowExactly` | internal/wireauth/wireauth.go:68-74 | the accepted timestamps lie as far behind the clock as ahead of it |
| `Replay.Middleware.PruneNonces` | internal/registry/registry.go:280-288 | exactly the nonces older than the retention are dropped, the others keep their time, and the call is a prune step of the replay machine |
| `Replay.Middleware.Maintain` | internal/coordinator/server.go:107-125 | upkeep drops exactly the nonces older than twice the skew |
| `Replay.NonceStays` | internal/registry/registry.go:280-288 | an accepted request's nonce is still recorded until the retention has passed, whatever prunes happen |
| `Replay.EnoughRetention` | internal/coordinator/server.go:107-109 | with retention of at least twice the skew no run accepts a request twice |
| `Replay.ShortRetention` | internal/coordinator/server.go:107-109 | for any shorter retention, a run that accepts one request twice |
| `Replay.RetentionIsTight` | internal/wireauth/wireauth.go:68-74 | all runs are free of replays if and only if the retention is at least twice the skew |

## Left out

- Sweep.ExclusiveUnits: what the map of a prefix of length zero holds after the sweep is not stated, because its own map is wrong to begin with; nor is the library's sorting algorithm, only that its result is a sorted rearrangement.
- Distribution.Distribute: the figures of a provider and family with an announced prefix of length zero are not stated; country and continent names carried along with the counts, and `shares`, are not modelled: percentages of the counts proved here.
- GeoDatabase.RangesAnswer: one trie per family stands for the MaxMind database; unmapping IPv4 records from an IPv6 database and records that fail to decode are not modelled.
- LeaseProtocol.RunKeeps: one scheduler and serialised lease transactions; several schedulers at once, SKIP LOCKED races and the deletion of assignments and leases by a prune are not modelled.
- Coordinator.Tables.LeaseAssignments: worker, providers in the worker's own network and the clock are parameters; the target address and probe parameters of the answer are not modelled.
- DecisionFeed.AnyScheduleRefinesOneFold: for workers registered from the start, with no other writer of worker states and no database errors; enrollment during a run is covered only by RereadExactly and StrandedApproval.
- Lifecycle.ReplayConverges: only the state column; approval times, key revocation and trust events of a transition are not modelled.
- Consensus.VerdictMonotone: weights and the responsive set are parameters; latency percentiles, loss rates and per-target status rows are not modelled.
- Trust.RunKeeps: real numbers, not floating point; approval is never in the future; the 24-hour window over agreements is any suffix of them, and retired workers simply are not rescored.
- Status.OutageHasOneAnomaly: rollups without database errors; severity, latency anomalies, the status document and the outbox are not modelled.
- LeaseProtocol.GroupHolders: that the digest a group is derived from never collides is not part of this model; SharedGroups shows what a collision would do.
- Publication.RunKeeps: one build or rollback at a time, and rollbacks to stored versions; the sanity gate is a build that stops after loading, building without an artifact store is not modelled, and a rollback to a partly pruned snapshot is not promised its targets.
- Publication.Publisher.Publish: hashing, signing and the readback comparison are not modelled; a failed readback is a build that stops.
- Replay.Middleware.Signed: the signature check is a boolean (unknown worker, missing headers and bad encoding count as failed); trust events and database errors are not modelled.
- Observation upload and its deduplication, HTTP and JSON handling, MRT parsing, probing, metrics, command-line programs and deployment: input and output around the parts modelled here.
