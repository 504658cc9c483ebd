# DOCSight: what its core promises, proved

DOCSight watches a cable modem: it polls it, analyses each snapshot, stores the
result and reports on periods. This project models the parts of it whose meaning
is fixed by their own code (state machines, folds, indexes, plans, arithmetic)
and proves what they promise. `dafny verify dfyconfig.toml` checks everything.

Code that changes state step by step is a class or a method with loops, proved
against a specification function; what the component promises is proved about
that function. Protocols with several threads are state machines whose steps are
the critical sections, and their claims hold for every sequence of steps.

| files | component |
|---|---|
| `Orders`, `Sequences`, `Tallies`, `Texts`, `Digits`, `Rounding` | sorting and string order, collecting over sequences, insertion-ordered counting dictionaries, white space and letter case, decimal digits, round-half-even |
| `Snapshots`, `Period`, `Provenance` | the aggregate of a period of stored snapshots, counted provenance, one diagnostic note per type |
| `ErrorCounters`, `CumulativeBaseline` | counter aggregation, growth since a baseline, scoring, whole runs of polls |
| `EventDetector` | health changes with hysteresis |
| `Registration`, `Registrar`, `ModuleLoader`, `SecretOwnership` | plan validation, registration of plans one after the other, greedy acceptance of modules, ownership of configuration and secret keys |
| `RateLimiter`, `UpdateChecker`, `Scheduler`, `Collector` | the concurrent runtime |
| `Decimals`, `ChannelSelector` | canonical decimals, channel identity, lookup of channels |
| `IcmpChecksum`, `ProbeBudget`, `SignalHealthView` | Internet checksum, time budgets of the probe, threshold bands |
| `FamilySummary`, `ModuleToggles` | explaining a family's health, switching modules on and off |

## Where a promise needs a condition

Each of these is stated with the exact condition, for all inputs.

- The order in which a period's snapshots are supplied is forgotten, whatever the
  rearrangement, exactly when the content digest tells the supplied snapshots of
  one timestamp apart (`OrderForgottenIff`).
- After a spike has expired, an uncorrectable-error issue survives exactly when
  there was one and the counters have grown since the previous snapshot
  (`ApplySpikeSuppression`); for a whole poll, exactly when the growth since the
  baseline reaches a threshold and some of it is that recent (`ScorePoll`).
- Counters that have not grown leave an uncorrectable-error issue behind if a
  threshold is zero: none remains exactly when the percentage is unknown or both
  thresholds, not only the warning one, are positive (`StagnantIsNotScored`).
- The raw recent deltas add up to the raw growth exactly when the raw total is
  present throughout the stretch (`RawGrowthTelescopes`).
- Two frequencies have the same text exactly when they agree after rounding to the
  decimal context's 28 significant digits, so two different numbers can share one
  (`FrequencyTextIdentifiesValue`, `LongDecimalsCollide`).
- Switching modules keeps one active profile and at least one theme exactly when
  every module that contributes a theme is also declared to be of type theme: the
  guards look at the type, the groups at the contribution
  (`ExclusiveIffThemesTyped`).
- Combining plans keeps the owners of secrets exactly when the plans agree on
  them; otherwise the later owner would win (`CombinedKeepsOwnersIff`). No call of
  the program gets there: registering a plan validates the plain concatenation
  first, so no owner ever registered is lost along any sequence of calls
  (`NoOwnerIsLost`), and in the other calls of `combined` at most one side has
  owners. In the plan that module loading assembles, declared secrets and owners
  agree (`NoSecretCollision`).
- The probe's checksum is RFC 1071's exactly when what its reading loses is
  harmless (`ChecksumIsRfc1071`): the wraps of its 32-bit accumulator, which
  packets of up to 65537 words do not have, and, on a big-endian machine, the place
  of an odd last byte, which it adds as a word of its own where section 1 of the
  RFC puts a zero byte behind it. So a packet of at most 131074 bytes has RFC 1071's
  checksum exactly when its length is even, the machine is little-endian, or its
  last byte is 0 (`ShortPacketsDoNotWrap`), and under the same condition a receiver
  that follows the RFC accepts it (`ReceiverAcceptsIff`). The probe's own packets
  are even. By its own reading a packet with its stored checksum verifies at every
  length (`StoredChecksumVerifies`).
- A missing signal value is classified as good, but its marker is put at 0, where
  only a critical band lies (`MissingValueIsMarkedCritical`).
- A scheduled run whose `collect()` returns None is not recorded at all, because
  None also stands for a run that did not get its lock (`RecordedExactlyOnce`;
  `NoResultIsUnrecorded` is the run that reaches it). The collectors shipped with
  the program return a result on every path, so only a collector added by a module
  gets there.
- A poll by hand can be inside `collect()` beside a scheduled run of the same name
  in some run of the loop exactly when the polled collector is the modem's, which a
  hot-swap replaces, or shares its name with another one: the collect lock belongs
  to the object (`OverlapIff`). The two are then always different objects, and one
  of them is the poll by hand (`OverlapIsManual`). Such runs share one event
  detector.
- The pruned buckets of the login limiter answer as the complete log of failures
  does while no recorded failure finds more active addresses than the limit and no
  earlier clock reading was later than the present one (`FullLogAnswer`); a
  failure is dropped too early exactly when a later reading pruned it
  (`KeptAtMostRecent`).
- Asking how long an address must wait indexes an empty list exactly when no
  attempts are allowed and no failure of the address is remembered (`RetryAfter`).
- A refresh of the update check whose thread cannot be started keeps every later
  one from being claimed (`UnspawnedBlocks`).

## Idealisations shared by all files

Numbers that the program keeps as floats are reals; text is ASCII. Digests and
hashes are arguments of which nothing is assumed: a theorem that needs one to
separate anything asks it only of the snapshots or rows supplied. Clocks are
arguments, and the update checker's never runs backwards; the rate limiter's may.
The decimal context's precision, 28 digits in Python, is an argument too. What a component calls but does not define
(parsing of text as a float, timestamp normalisation, the SNR thresholds in force,
the notes of one snapshot, the modulation order, view identities) is an argument.

## Model

| member | source | states |
|---|---|---|
| `PeriodAggregation.AggregateSnapshotPeriod` | app/aggregation/period.py:142-326 | the loop with all its accumulators reports, for every metric and listing, exactly what the ordered snapshots say |
| `PeriodAggregation.ReadSnapshot` | app/aggregation/period.py:183-283 | one turn of the loop extends what every accumulator has established about the snapshots read so far |
| `PeriodAggregation.RankBadChannels` | app/aggregation/period.py:128-139 | counting bad channels in a dictionary and cutting the stable ranking at five |
| `PeriodAggregation.AggregateIgnoresOrder` | app/aggregation/period.py:51-60 | when the digest separates the supplied snapshots of one timestamp, aggregates of two arrangements of them are equal in every field |
| `PeriodAggregation.OrderedIgnoresOrder` | app/aggregation/period.py:51-60 | under the same condition the sort by timestamp and content digest forgets the order of its input |
| `PeriodAggregation.OrderForgottenIff` | app/aggregation/period.py:51-60 | every rearrangement is sorted alike exactly when the digest separates the supplied snapshots of one timestamp |
| `PeriodAggregation.SamplesAreInOrder` | app/aggregation/period.py:276-297 | no snapshot is lost or added, and the samples are in order of time |
| `PeriodAggregation.LatestAgrees` | app/aggregation/provenance.py:375-389 | the latest snapshot of the report and of the aggregate are observed at one time, and are the same unless another shares it |
| `PeriodAggregation.EveryMetricCoversAll` | app/aggregation/period.py:183-209 | for all fourteen metrics the five coverage states add up to the total, the number of snapshots |
| `PeriodAggregation.CountsAreFullyCovered` | app/aggregation/period.py:286-291 | the four count metrics are fully covered |
| `PeriodAggregation.ReadingIffSample` | app/aggregation/period.py:90-100 | the value tests of the accumulators and the coverage classification, made separately, agree on every snapshot |
| `PeriodAggregation.MetricIsRead` | app/aggregation/period.py:90-100 | each metric is read from its own key; an unsupported counter is unsupported whatever is stored, an absent key missing, None null, a number a sample and its reading, anything else invalid |
| `PeriodAggregation.CoverageCounts` | app/aggregation/period.py:189-209 | each of the five coverage counters is the number of snapshots in that state |
| `PeriodAggregation.FirstAtSnr` | app/aggregation/period.py:103-125 | the first channel with the SNR looked for decides the warning, and without one it is missing |
| `PeriodAggregation.WarningFollowsSnr` | app/aggregation/period.py:198-209 | without an SNR there is no warning, for the same reason; otherwise the channels decide |
| `PeriodAggregation.SampleIsRead` | app/aggregation/period.py:270-283 | a sample shows the averages and the uncorrectable counter as stored, and None for what is no number or not supported |
| `PeriodAggregation.AbsentIffNoSamples` | app/aggregation/period.py:220-319 | an average, a power extreme, the lowest SNR, a counter maximum or a counter total is None exactly when its metric has no samples |
| `PeriodAggregation.AverageNeedsSamples` | app/aggregation/period.py:303-306 | an average lies between any bounds of its readings |
| `PeriodAggregation.AverageIsMean` | app/aggregation/period.py:303-306 | a reported average times the reported number of samples is the sum of the readings, snapshot by snapshot |
| `PeriodAggregation.TotalIsSum` | app/aggregation/period.py:255-274 | a reported counter total is the sum of the readings |
| `PeriodAggregation.ReportedWorstIsExtreme` | app/aggregation/period.py:225-265 | a worst value is a reading of some snapshot, and no reading is worse (by distance from zero for downstream power) |
| `PeriodAggregation.ReportedWorstByKind` | app/aggregation/period.py:225-265 | no reading of downstream power is further from zero than the reported one, no SNR is lower, and no upstream power or counter is higher |
| `PeriodAggregation.WorstIsFirstExtreme` | app/aggregation/period.py:225-265 | among equally bad readings the first one is kept |
| `PeriodAggregation.ReportedWarningIsFirst` | app/aggregation/period.py:241-253 | the SNR warning is the threshold of the first snapshot that attains the minimum SNR and yields one, and absent only if none does |
| `PeriodAggregation.SnrWarnIsFirstAtMin` | app/aggregation/period.py:241-253 | the resetting update of the pair (minimum, warning) computes that statement |
| `PeriodAggregation.NoSampleNoWarning` | app/aggregation/period.py:199-209 | a period without a derived threshold reports no SNR warning |
| `PeriodAggregation.ReportedHealthSums` | app/aggregation/period.py:211-218 | the health distribution sums to the number of snapshots and agrees with the three health counts |
| `PeriodAggregation.WorstChannelsAreMostFrequent` | app/aggregation/period.py:128-139 | at most five distinct channels with their exact counts, most frequent first, and none left out was bad more often |
| `PeriodAggregation.BadUnlessGood` | app/aggregation/period.py:128-139 | a channel is counted as bad unless its health is good or tolerated, under its id, or zero where it has none |
| `PeriodAggregation.EquallyBadInOrder` | app/aggregation/period.py:139 | equally bad channels are ranked by first appearance |
| `Provenance.AggregateProvenance` | app/aggregation/provenance.py:46-102 | the loop and the final sort compute the counted provenance |
| `Provenance.ProvenanceIgnoresOrder` | app/aggregation/provenance.py:52-92 | legacy count and sorted metadata do not depend on the order of the snapshots |
| `Provenance.ProvenanceConserves` | app/aggregation/provenance.py:52-77 | the legacy count and the counts of all identities add up to the number of snapshots |
| `Provenance.MetadataCounts` | app/aggregation/provenance.py:77-92 | the metadata lists exactly the identities that occur, once each, with their number of snapshots, sorted |
| `Provenance.IdentityIsRead` | app/aggregation/provenance.py:52-77 | a snapshot is legacy exactly when its metadata has none of the three keys; otherwise it is counted under its four tokens |
| `Provenance.SchemaTokens` | app/aggregation/provenance.py:34-43 | a schema is a number exactly for a whole number, None exactly for None, and otherwise invalid |
| `Provenance.IdentityOrder` | app/aggregation/provenance.py:84-91 | the metadata is ordered by schema, application version, profile id and profile version, in each None before numbers before texts |
| `Provenance.SortKeyIdentifies` | app/aggregation/provenance.py:87-91 | type names and texts determine an identity, so the sort key has no ties between different identities |
| `Provenance.DeriveHistorical` | app/aggregation/provenance.py:375-428 | the first snapshot that none is later than, and the dictionary of running minima read out in the order of the types |
| `Provenance.OneWorstNotePerKind` | app/aggregation/provenance.py:391-427 | exactly one note for each type that occurs and none for others; no candidate of its type ranks before it, and it is the first such |
| `Provenance.CandidatesAreNotes` | app/aggregation/provenance.py:378-385 | the candidates are exactly the notes of the snapshots, each with the time of its snapshot |
| `Provenance.EvidenceDecides` | app/aggregation/provenance.py:391-421 | a numeric deviation comes before none, the larger first; without one the higher value is worse for the high types and the lower for the others |
| `Provenance.TiesAreSettled` | app/aggregation/provenance.py:367-421 | equal evidence is ranked by time, then by channel, numbers in order and before names, then by channel type |
| `Provenance.RankOrder` | app/aggregation/provenance.py:412-421 | ranks are totally ordered |
| `ErrorCounters.AggregateErrorCounters` | app/error_counters.py:160-184 | the loops compute totals, cohort and coverage of the channels |
| `ErrorCounters.CoverageIsExhaustive` | app/error_counters.py:137-157 | every channel is comparable, partial or unsupported, and each kind of support is counted |
| `ErrorCounters.FamiliesConserveCoverage` | app/error_counters.py:160-184 | the coverages of the families add up to the coverage of all channels |
| `ErrorCounters.GroupsAreFamilies` | app/error_counters.py:170-173 | grouping puts each channel into the group of its family, unknown where it has none, and into no other |
| `ErrorCounters.NoneMeansUnsupported` | app/error_counters.py:160-184 | a total is None exactly when no channel supports it; the comparable totals exactly when the cohort is empty |
| `ErrorCounters.TotalsAddUp` | app/error_counters.py:175-180 | raw totals add up the counters of all channels, comparable totals those of the channels that have both |
| `ErrorCounters.CounterTruncates` | app/error_counters.py:82-88 | a fraction is cut off towards zero, and what is no number is no counter |
| `ErrorCounters.KeyIdentifies` | app/error_counters.py:91-95 | unless a part contains the separator, equal keys are equal in all four parts |
| `ErrorCounters.PercentageIsShare` | app/error_counters.py:187-199 | the percentage is the share of uncorrectable codewords in all, right to half a hundredth; 0 below the minimum, unknown without both counters |
| `ErrorCounters.ResetIff` | app/error_counters.py:208-252 | a reset is reported exactly when the cohort changed or a total dropped below the previous or the baseline one, and never on a first poll |
| `ErrorCounters.BaselineIsKept` | app/error_counters.py:254-275 | a first poll or a reset makes the current totals the baseline; otherwise the stored one is kept, or the previous total where none is stored |
| `ErrorCounters.RecentIsSincePrevious` | app/error_counters.py:254-275 | the recent growth is what was added since the previous poll, and nothing after a restart |
| `ErrorCounters.DeltasNonNegative` | app/error_counters.py:202-291 | whatever was stored, every reported delta is None or non-negative, and cumulative deltas are distances from the reported baselines |
| `CumulativeBaseline.Analysis.ApplyCumulativeErrorBaseline` | app/analyzer.py:316-403 | the summary is rewritten in place as scoring says, or left alone without a predecessor, in a spike window or on a division by zero; the percentage it then reports is the share of the uncorrectable growth in all growth |
| `CumulativeBaseline.Analysis.ApplySpikeSuppression` | app/analyzer.py:406-447 | nothing changes before expiry; after it an uncorrectable-error issue survives exactly when there was one and the counters grew since the previous snapshot, and otherwise no such issue, no percentage above 0 and no trace in the health remains, while other issues and the growth are kept |
| `CumulativeBaseline.Analysis.ScorePoll` | app/collectors/modem.py:187-192 | scoring then suppression: once the spike has expired, an uncorrectable-error issue is reported exactly when the growth since the baseline reaches a threshold and some of it is newer than the previous snapshot; without uncorrectable growth and with positive thresholds none is |
| `CumulativeBaseline.DroppingOnlyImproves` | app/analyzer.py:282-293 | dropping the uncorrectable-error issues never makes the health worse, and makes it good exactly when there were no others |
| `CumulativeBaseline.HealthByIssues` | app/analyzer.py:282-292 | the health is good exactly without issues, critical exactly if one mentions it, marginal exactly if one mentions it and none critical |
| `CumulativeBaseline.ScoringIsLocal` | app/analyzer.py:282-403 | scoring changes only uncorrectable-error issues, and the health is the one the remaining issues give |
| `CumulativeBaseline.IssueNamesThreshold` | app/analyzer.py:367-376 | the critical issue is raised exactly from the critical threshold on, the high one exactly between the thresholds |
| `CumulativeBaseline.NoGrowthNoPenalty` | app/analyzer.py:316-403 | without uncorrectable growth, positive thresholds penalise nothing |
| `CumulativeBaseline.StagnantIsNotScored` | app/analyzer.py:370-403 | without growth the percentage is 0 or None, and no uncorrectable-error issue remains exactly when it is None or both thresholds are positive |
| `CumulativeBaseline.ComparableGrowthTelescopes` | app/error_counters.py:208-291 | along any run, a comparable cumulative delta is the sum of the recent deltas since the last fresh baseline, all under the same cohort |
| `CumulativeBaseline.RawGrowthTelescopes` | app/error_counters.py:208-291 | the same for the raw total, exactly while it is present in every snapshot |
| `CumulativeBaseline.StagnantRunIsNotScored` | app/analyzer.py:316-403 | along any run, counters that have not grown since the fresh baseline are not scored |
| `CumulativeBaseline.PolledChannelsAreCoherent` | app/error_counters.py:160-184 | aggregates of real channels satisfy what the run theorems need of them |
| `CumulativeBaseline.RunFollowsScoring` | app/analyzer.py:336-368 | the growth along a run is the growth scoring takes from the two analyses and the stored baseline |
| `EventDetection.EventDetector.Check` | app/event_detector.py:117-163 | returns the events of the poll and takes the analysis as the next predecessor |
| `EventDetection.EventDetector.Seed` | app/event_detector.py:88-100 | seeding restarts the history from a baseline |
| `EventDetection.EventDetector.CheckHealth` | app/event_detector.py:165-200 | the counters refine the statement about the whole history of polls |
| `EventDetection.ConfirmedIsLatestBlock` | app/event_detector.py:165-200 | the confirmed health is the value of the latest block of N equal polls, or the baseline's if there is none |
| `EventDetection.PendingBelowThreshold` | app/event_detector.py:180-200 | the pending count stays below N, and a full block always confirms |
| `EventDetection.StepCounters` | app/event_detector.py:172-200 | how one more poll moves the confirmed health and the trailing block, in terms of the two counters |
| `EventDetection.ChangesChain` | app/event_detector.py:203-221 | the emitted events form a chain from the baseline's health to the reported one, each a real change |
| `EventDetection.SeverityOfChange` | app/event_detector.py:203-221 | getting better is information; getting worse is critical exactly when it ends in critical and a warning otherwise |
| `Registration.ValidatePlan` | app/registration.py:141-196 | the scans report no error exactly when no two members conflict, stated of the ids, configuration keys, secrets and owners, blueprint names, endpoints and routes themselves, and every error is a real conflict |
| `Registration.AcceptableMeans` | app/registration.py:141-196 | claims are free of conflicts exactly when ids differ, configuration keys and secrets have one module, names are taken once, equal endpoints have one source and view, and rules sharing a path and a method other than OPTIONS are of one endpoint |
| `Registration.Scan` | app/registration.py:141-196 | remembering the first holder of each key finds a conflict exactly when some two claims conflict, and reports each claim that clashes with the first to its key |
| `Registration.KindsSeparate` | app/registration.py:141-196 | scanning ids, config keys, secrets, names and routes separately decides the whole plan |
| `Registration.UnionIsPairwise` | app/registration.py:141-196 | a union of claims is free exactly when its parts are and nothing crosses them |
| `Registration.SubPlanAcceptable` | app/registration.py:141-196 | every sub-plan of an accepted plan is accepted |
| `Registration.JointlyAcceptable` | app/registration.py:82-95 | two plans are acceptable together exactly when each is and nothing conflicts across |
| `Registration.CombinedKeepsOwnersIff` | app/registration.py:82-95 | combining keeps every secret owner exactly when the plans agree on them |
| `Registration.SortedDictKeepsLast` | app/registration.py:89-91 | merging owners keeps the last owner of each key and no other, in the order of the keys |
| `Registrar.NoOwnerIsLost` | app/registration.py:229-288 | along any sequence of registrations, accepted, rejected or raising, the accumulated modules and owners are free of conflicts, the modules are those of the registered plans in order, and the owners exactly those some registered plan named |
| `Registrar.CombinedLedger` | app/registration.py:238-253 | where the validated concatenation is acceptable, the combination is, and it has every owner |
| `Registrar.Application.RegisterPlan` | app/registration.py:229-288 | a plan is registered exactly when its object is new, it agrees with what is registered, it is acceptable beside what is served and nothing raises; otherwise the registration stays as it was |
| `Registration.PlannedRule` | app/registration.py:24-37 | a planned rule has exactly the given methods in upper case, OPTIONS, and HEAD if GET is among them |
| `Registration.MethodsAscend` | app/registration.py:33-37 | the methods are in strictly ascending order |
| `ModuleLoading.ValidateResolved` | app/module_loader.py:179-205 | validating module by module yields the greedy choice over the base plan, and an error is set on exactly the community modules turned down |
| `ModuleLoading.OrderFirstMaximal` | app/module_loader.py:179-205 | the accepted modules are the order-first maximal conflict-free set over the base plan |
| `ModuleLoading.TurnedDownIffConflict` | app/module_loader.py:179-205 | a module is turned down exactly when it conflicts with itself, the base or an accepted one |
| `ModuleLoading.AcceptableIffFits` | app/module_loader.py:185-198 | validating the combined plan decides whether the members fit together |
| `ModuleLoading.BaseKeepsLastOwners` | app/module_loader.py:180-190 | the base plan is taken over whole, with the last owner of each secret |
| `SecretOwnership.EvaluateSecretOwnership` | app/module_config_registry.py:47-78 | whatever order the keys are visited in, owners, reserved keys and errored modules are exactly those of the declarative statement, and each error names a reason the module has: a protected key, or a disputed one |
| `SecretOwnership.ListsDecideOwner` | app/module_config_registry.py:65-77 | the test of the two claim lists holds exactly when one module alone declares the key secret and alone configures it |
| `SecretOwnership.UnerroredOwnsSecrets` | app/module_config_registry.py:47-78 | a community module without an ownership error owns all its declared secrets |
| `SecretOwnership.DisabledListsNoConfig` | app/module_config_registry.py:81-98 | only the configuration check skips disabled modules |
| `SecretOwnership.OrderDoesNotMatter` | app/module_config_registry.py:47-78 | owners and errored modules do not depend on the order of the modules |
| `SecretOwnership.SubsetAgrees` | app/module_loader.py:145-151 | evaluating again on the registry subset assigns each kept module the same keys |
| `SecretOwnership.NoSecretCollision` | app/module_loader.py:144-163 | no secret of the assembled plan has two owners |
| `SecretOwnership.EvaluateConfigOwnership` | app/module_config_registry.py:81-98 | a module is in error exactly when it is an enabled community module with a key that is protected or that another one uses; the error is a conflict exactly where a key is shared |
| `SecretOwnership.AcceptedConfigsAreDisjoint` | app/module_config_registry.py:81-98 | modules that pass share no key with each other, a built-in module or the core |
| `RateLimiting.LoginRateLimiter.PruneLocked` | app/runtime.py:173-186 | pruning and eviction in place compute the pruned buckets: the recent part of every bucket, without the longest quiet ones beyond the limit |
| `RateLimiting.ApplyKeepsInv` | app/runtime.py:173-212 | every operation keeps the buckets equal to the kept part of the remembered log, within the limit |
| `RateLimiting.LoginRateLimiter.RetryAfter` | app/runtime.py:192-201 | with fewer kept failures than allowed the wait is 0; otherwise the lockout, doubled for each failure too many up to eight times, less the time since the last failure, and never below 0; this for any clock readings; without a later reading and with nothing forgotten it is the answer of the full log; the index error occurs exactly when no attempts are allowed and none is remembered |
| `RateLimiting.LoginRateLimiter.RecordFailure` | app/runtime.py:203-208 | exactly the buckets beyond the limit are evicted, at most one and none while there is room, the longest quiet first; everything else is remembered, and with readings in order the recorded address is kept |
| `RateLimiting.LoginRateLimiter.Reset` | app/runtime.py:210-212 | resetting forgets one address and no other |
| `RateLimiting.FullLogAnswer` | app/runtime.py:173-208 | along any run in which no recorded failure finds more active addresses than the limit, and whose readings are not later than the present one, the pruned buckets give the wait of the complete log |
| `RateLimiting.NothingForgotten` | app/runtime.py:173-208 | in such a run no address is ever evicted, whatever the clock readings |
| `RateLimiting.KeptAtMostRecent` | app/runtime.py:173-181 | what the prunes keep of a log is its recent part exactly when no prune with a later reading dropped a failure that is still recent |
| `RateLimiting.RecentTwice` | app/runtime.py:173-181 | pruning early loses nothing that a later prune would keep |
| `RateLimiting.EvictsOldest` | app/runtime.py:182-186 | eviction removes exactly the longest quiet buckets beyond the limit |
| `RateLimiting.WaitingSuffices` | app/runtime.py:192-201 | after waiting the reported time without a new failure, no wait is imposed |
| `RateLimiting.OneMoreFailureDoubles` | app/runtime.py:192-201 | one more failure doubles a lockout in force, counted from the last failure, up to eight times, and from then on leaves it |
| `UpdateChecking.SingleFlight` | app/runtime.py:243-272 | in every interleaving, with the clock read before the lock is taken, the flag is up exactly while one refresh is outstanding, refreshes are at least `ttl` apart, and the tag is None or newer than the application |
| `UpdateChecking.NextKeepsInv` | app/runtime.py:243-272 | every step of callers and refreshes keeps the invariant |
| `UpdateChecking.UnspawnedBlocks` | app/runtime.py:243-259 | a claimed refresh whose thread is never started keeps the flag up: no other is claimed and the cached tag never changes |
| `UpdateChecking.RefreshTakesEffect` | app/runtime.py:259-272 | a refresh whose fetch returns, whatever steps of callers come between its own, ends the check with the fetched tag cached if it announces a newer version and none otherwise |
| `UpdateChecking.FailureKeepsTag` | app/runtime.py:259-272 | a refresh whose fetch raises ends the check and leaves the cached tag |
| `UpdateChecking.CallerClaims` | app/runtime.py:243-257 | a caller claims a refresh exactly when the last check is `ttl` ago and none is under way, and otherwise changes nothing |
| `UpdateChecking.LateCallerClaims` | app/runtime.py:243-257 | `ttl` after the last check the next caller claims a refresh, unless one is under way |
| `UpdateChecking.AnnouncesNewer` | app/runtime.py:262-264 | with or without leading v's, a tag is announced exactly when it names a newer version |
| `UpdateChecking.VersionNewerIsStrictOrder` | app/runtime.py:60-72 | "newer" is a strict order that separates any two versions with different parts |
| `UpdateChecking.BuildsOrderNumerically` | app/runtime.py:60-72 | builds of one release are ordered as numbers |
| `UpdateChecking.ReleasesOrderByText` | app/runtime.py:60-72 | between different releases the later text is newer, whatever the builds |
| `UpdateChecking.PartsWithoutBuild` | app/runtime.py:60-72 | without a dot there is no build, and a suffix that is no number counts as build 0 |
| `Collecting.Collector.ShouldPoll` | app/collectors/base.py:74-108 | a collector is due at the latest its interval plus 3600 s after its last recorded outcome |
| `Collecting.Collector.PenaltySeconds` | app/collectors/base.py:64-93 | the penalty follows the failures in a row, and a day of idleness forgives them |
| `Collecting.Collector.RecordSuccess` | app/collectors/base.py:110-122 | a success clears the failures |
| `Collecting.Collector.RecordSkip` | app/collectors/base.py:124-135 | a skip clears the failures but does not count as a success |
| `Collecting.Collector.RecordFailure` | app/collectors/base.py:137-150 | a failure extends the failures in a row by one |
| `Collecting.PenaltyLadder` | app/collectors/base.py:84-93 | the penalty starts at 30 s, doubles, and is capped at 3600 s from the eighth failure on |
| `Scheduling.SchedulerSafety` | app/main.py:268-379 | in every interleaving with manual polls and hot-swaps: runs in flight have different names, never exceed the workers, and each collector has at most one `collect()` running |
| `Scheduling.RecordedExactlyOnce` | app/main.py:283-321 | a finished run that got its lock is recorded once, as success, failure or skip, unless `collect()` returned None |
| `Scheduling.NoResultIsUnrecorded` | app/main.py:283-321 | a run whose `collect()` returns None leaves nothing in flight and nothing recorded |
| `Scheduling.SameNameRunsDoNotOverlap` | app/main.py:360-377 | two scheduled runs of one name never overlap, even across a hot-swap |
| `Scheduling.OverlapIff` | app/main.py:327-379 | some run brings two threads of one name into `collect()` together exactly when the manually polled collector is the modem's or shares its name with another |
| `Scheduling.OverlapIsManual` | app/blueprints/polling_bp.py:206-243 | two threads collecting under one name are on different collectors, and one is a manual poll |
| `Scheduling.SwapOverlaps` | app/main.py:327-379 | the run: a scheduled poll collects, the driver is swapped, and a manual poll of the new driver collects beside it |
| `Scheduling.HotSwapTakesEffect` | app/main.py:349-377 | along every run a hot-swap puts the new driver exactly where the old one stood, no later run is opened on the old one, and one on the new one as soon as no run of the name is in flight |
| `Scheduling.ModemIsListed` | app/main.py:349-355 | along every run the current modem is among the collectors |
| `Scheduling.RunKeepsInv` | app/main.py:323-379 | names, locks and records keep their invariants along every run |
| `Scheduling.NextKeepsLocks` | app/blueprints/polling_bp.py:206-243 | a collect lock is held by exactly the thread that is collecting, scheduled or manual |
| `Scheduling.LockDecides` | app/main.py:268-276 | who finds the collect lock free collects under it; who finds it taken has ended without collecting |
| `Decimals.SameTextIffSameRounding` | app/channel_selector.py:19-23 | two decimals have one canonical text exactly when they round to the same value |
| `Decimals.TextIdentifiesValue` | app/channel_selector.py:19-23 | equal values always share a text, and only they do among decimals of at most the context's digits |
| `Decimals.LongDecimalsCollide` | app/channel_selector.py:19-23 | beyond the context's digits, different numbers can share a text |
| `Decimals.CanonicalTextDenotes` | app/channel_selector.py:19-23 | the text, read back, denotes the rounded value |
| `Decimals.CanonicalTextIsStable` | app/channel_selector.py:19-23 | reading the text and normalising it again changes nothing |
| `Decimals.RoundIsNearest` | app/channel_selector.py:22 | rounding moves a coefficient by at most half a unit of the last digit kept, and ties go to even |
| `Decimals.RoundedValueIsNear` | app/channel_selector.py:22 | rounding, with or without a carry into a further digit, moves the value by at most half a unit of the last digit kept |
| `Decimals.PointedIsRead` | app/channel_selector.py:45 | a signed numeral with a point denotes its digits with as many places as stand behind the point |
| `Decimals.OnlyNumeralsAreRead` | app/channel_selector.py:50-58 | nothing but an optional sign and digits with at most one point is read |
| `Decimals.RoundIsExactIffFits` | app/channel_selector.py:22 | normalisation is exact for the decimals that fit the context and no others |
| `Decimals.WholeIffIntegerValue` | app/channel_selector.py:45-47 | the integrality test accepts exactly whole values, and `int` returns them |
| `ChannelSelection.FrequencyTextIdentifiesValue` | app/channel_selector.py:50-67 | in any Hz, kHz or MHz spelling, two frequencies share a text exactly when their rounded values agree, within the context's precision (28 digits) exactly when they are equal; other text never collides with a number |
| `ChannelSelection.FrequencyIsRead` | app/channel_selector.py:13-16 | a numeral, white space and a word are read as number and unit |
| `ChannelSelection.UnitIsRead` | app/channel_selector.py:58-63 | hz, khz and mhz are units in any case, nothing is MHz, and no other word is a unit |
| `ChannelSelection.UnitsScale` | app/channel_selector.py:59-62 | the value in MHz is a millionth of that in Hz and a thousandth of that in kHz |
| `ChannelSelection.ScientificIsRead` | app/channel_selector.py:26-47 | an exponent, with its sign, is added to the mantissa's |
| `ChannelSelection.CollapseWord` | app/channel_selector.py:67 | words are taken one by one and joined by single spaces |
| `ChannelSelection.IdKinds` | app/channel_selector.py:26-34 | an id is absent, a number or a text by its tag, and texts share an id exactly when they agree after stripping |
| `ChannelSelection.TextFrequencies` | app/channel_selector.py:50-67 | frequencies that are no numbers share a form exactly when they agree apart from case and the amount of white space |
| `ChannelSelection.SameLegacySameNormalized` | app/channel_selector.py:26-47 | ids with one legacy integer have one normalised text |
| `ChannelSelection.SameNormalizedSameLegacy` | app/channel_selector.py:26-47 | within the context's precision, ids with one normalised text have one legacy integer |
| `ChannelSelection.LegacyOfInteger` | app/channel_selector.py:37-47 | the legacy id of an integer's text is that integer |
| `ChannelSelection.AttachChannelSelectors` | app/channel_selector.py:82-97 | a row requires a selector exactly when it has no legacy id or shares its normalised id |
| `ChannelSelection.MatchChannels` | app/channel_selector.py:113-137 | the index answers every name asked for as a linear scan for the sole match of its last request does; ids equal under Python's equality are one name |
| `ChannelSelection.ScanFindsOnlyMatch` | app/channel_selector.py:132-136 | the scan reports a row if that row alone matches |
| `ChannelSelection.FoundIsOnlyMatch` | app/channel_selector.py:132-136 | a reported row is the only one that matches |
| `ChannelSelection.LegacyLookupIsExact` | app/channel_selector.py:82-137 | a row that requires no selector is recovered by its legacy id, and it alone |
| `ChannelSelection.SelectorRequiredOnlyIfNeeded` | app/channel_selector.py:90-95 | within the context's precision, a selector is required only where the legacy id would find nothing |
| `ChannelSelection.SelectorLookupIsExact` | app/channel_selector.py:70-79 | when the hash separates the rows, a selector finds its row exactly when no other row agrees in normalised id and frequency |
| `ChannelSelection.SelectorIsDigest` | app/channel_selector.py:70-79 | a selector hashes the normalised id and frequency, so a hash without collisions separates the rows |
| `Checksum.IcmpChecksum` | tools/icmp_probe_helper.c:19-33 | the loop over 16-bit words with a 32-bit accumulator computes the checksum of the bytes |
| `Checksum.BuildIcmp4Echo` | tools/icmp_probe_helper.c:61-71 | whatever the machine's byte order, the packet written in place is the echo request with RFC 1071's checksum in network byte order, and it verifies; bytes beyond it are untouched |
| `Checksum.TwoFoldsSuffice` | tools/icmp_probe_helper.c:29-32 | two folds reduce any 32-bit sum to the complement of its residue |
| `Checksum.ChecksumIsRfc1071` | tools/icmp_probe_helper.c:19-33 | for every packet and byte order, the checksum is RFC 1071's exactly when the accumulator's wraps and, in big-endian order, the misplaced odd byte together lose nothing |
| `Checksum.ShortPacketsDoNotWrap` | tools/icmp_probe_helper.c:19-33 | packets of at most 65537 words never wrap it, and have RFC 1071's checksum exactly when the length is even, the order little-endian or the last byte 0 |
| `Checksum.RfcChecksumIgnoresByteOrder` | tools/icmp_probe_helper.c:19-33 | machines of either byte order store the same two bytes for RFC 1071's checksum, so that words may be loaded in the machine's own order |
| `Checksum.StoredChecksumVerifies` | tools/icmp_probe_helper.c:61-71 | a packet with its checksum stored in the zeroed field has checksum 0, whatever its length |
| `Checksum.ReceiverAcceptsIff` | tools/icmp_probe_helper.c:19-33 | a receiver that follows RFC 1071 accepts a short packet with the stored checksum exactly when the length is even, the order little-endian or the last byte 0 |
| `Checksum.OneWordChangeDetected` | tools/icmp_probe_helper.c:19-33 | in a short packet, replacing one word goes unnoticed only for the two forms of zero |
| `ProbeBudget.RunPlan` | tools/icmp_probe_helper.c:257-272 | the printed budgets are non-decreasing, each the floor or the ceiling of the even split, and sum to the total |
| `ProbeBudget.NextShare` | tools/icmp_probe_helper.c:53-59 | dividing what is left by the addresses left gives the next even share |
| `ProbeBudget.BudgetIsEvenPart` | tools/icmp_probe_helper.c:53-59 | nothing left or nobody left gives no budget; otherwise all could have as much, but not more |
| `ProbeBudget.ProbeAll` | tools/icmp_probe_helper.c:323-383 | exit code and offers of the address loop; without overruns every address reached is offered at least the even share |
| `ProbeBudget.OffersDoNotShrink` | tools/icmp_probe_helper.c:335-356 | however early earlier attempts finished, no later share is smaller |
| `SignalHealthView.PowerBandsTileScale` | app/signal_health_view.py:118-147 | for ordered thresholds the bands are contiguous, start at 0, end at 100 and fill the scale |
| `SignalHealthView.MarkerLiesInItsBand` | app/signal_health_view.py:85-147 | the marker of a value lies in the closed extent of a band of the classifier's kind, unless that band's rounded width is zero |
| `SignalHealthView.MissingValueIsMarkedCritical` | app/signal_health_view.py:15-19 | a missing value is good for the classifier but marked at 0, in the critical band |
| `SignalHealthView.SpanStaysOnScale` | app/signal_health_view.py:29-33 | the observed span starts at the minimum, stays on the scale, covers the maximum and ends there if that is 1.6 % away; it is that wide unless pressed against the end |
| `SignalHealthView.RangesByDefault` | app/signal_health_view.py:118-124 | a missing list takes the next inner range, the critical one widened by 2 dB, and good is -4 to 13 |
| `SignalHealthView.ScaleReaches` | app/signal_health_view.py:125-127 | the scale reaches beyond the critical range by 6 % of it on either side, and by 0.5 at least |
| `SignalHealthView.PctIsShare` | app/signal_health_view.py:15-18 | within the scale a percentage is the share of the way, to the nearest thousandth |
| `FamilySummary.DistinctModulationHealths` | app/analyzer.py:601-615 | exactly the modulations some channel reports, each once with the joint health of the channels reporting it, sorted |
| `FamilySummary.DistinctIsExact` | app/analyzer.py:601-615 | the same four facts of the folded list: once each, exactly those reported, the joint health, sorted |
| `FamilySummary.FamilyHealthDriver` | app/analyzer.py:645-674 | no driver without a candidate; otherwise the first channel with the family's health, and if none has it, the first of the worst |
| `FamilySummary.DriverIsFirst` | app/analyzer.py:645-674 | the chosen candidate is at the first such position among the channels |
| `FamilySummary.WorstHealthIsMax` | app/analyzer.py:570-575 | the worst health is one of the values and none is worse |
| `FamilySummary.RanksAscend` | app/analyzer.py:567 | missing, good, tolerated, warning and critical are ranked in this order, and an unknown health as good |
| `FamilySummary.ModulationPreferred` | app/analyzer.py:591-594 | the preferred modulation is listed where a channel reports it, else the other, else none |
| `FamilySummary.HealthHasWitness` | app/analyzer.py:687-750 | no metric is worse than the family's health; a family that is not good has a cause and a driver: a channel of the family with the family's health in that dimension, which is the worst over all channels and exposed metrics |
| `FamilySummary.CausesInOrder` | app/analyzer.py:715-721 | modulation is blamed before power and power before quality, which counts downstream only |
| `FamilySummary.MetricIsWorstChannel` | app/analyzer.py:687-750 | each metric of the family is as bad as its worst channel |
| `FamilySummary.FamilyHealthIsMax` | app/analyzer.py:706-710 | the family's health is one of its metrics and none is worse |
| `ModuleToggles.ExclusiveIffThemesTyped` | app/blueprints/modules_bp.py:80-231 | every sequence of requests keeps one active profile and an active theme exactly when all contributed themes are typed as themes |
| `ModuleToggles.RunKeepsExclusive` | app/blueprints/modules_bp.py:80-231 | the invariant along any run of accepted and rejected requests |
| `ModuleToggles.UntypedThemeEscapes` | app/blueprints/modules_bp.py:129-178 | the last theme can be disabled when it comes from a module of another type |
| `ModuleToggles.RoundTrip` | app/blueprints/modules_bp.py:112-126 | the comma-joined text parses back to the same set exactly when every identifier is clean |
| `ModuleToggles.ConfigManager.EnableModule` | app/blueprints/modules_bp.py:82-126 | status and new disabled set of an enable request |
| `ModuleToggles.ConfigManager.DisableModule` | app/blueprints/modules_bp.py:129-178 | status and new disabled set of a disable request |
| `ModuleToggles.ConfigManager.ApplyBatch` | app/blueprints/modules_bp.py:182-231 | a batch is applied as a whole or refused as a whole |
| `ModuleToggles.BatchTakesEffect` | app/blueprints/modules_bp.py:195-218 | an accepted batch leaves a module active exactly when its last entry asks for it, and modules it does not name as they were |

## Left out

- EvaluateSecretOwnership: the protected keys (core, secret, hash and private keys) are one parameter, and error messages are two constructors
- RegisterPlan: what the application serves at each call is an argument, and a registration that raises half-way is one outcome; template, catalogue and threshold side effects are not modelled
- PlannedRule: rules are given by path, methods, endpoint and view identity; converters and host matching are not modelled
- NoSecretCollision: assumes that declared secrets are configured keys and that accepted built-in modules do not collide among themselves, as manifest validation and plan validation establish
- SchedulerSafety: stopping, shutdown and a failing submission are not steps; `is_enabled` and `should_poll` are free choices of the loop, and only the modem collector is swapped
- FrequencyTextIdentifiesValue: exponents beyond the decimal context's range, digit separators and non-ASCII digits in numbers are not modelled
- MatchChannels: which requested ids are equal as Python dictionary keys is an argument, the key given with each id
- AggregateSnapshotPeriod: health and channel id values are compared structurally; unhashable values and channels that are not mappings, which raise, are not modelled
- HealthHasWitness: null or unknown health strings in a channel are read as good
- Building the diagnostic notes of one snapshot (app/aggregation/provenance.py:222-353): severity and boundary text, thresholds of stored profiles
- `observed_counter_values` and `observed_counter_increase`: the second relies on a counter unwrapping that is not part of this model
- Check: one call is one step. The source gives up its lock after exchanging the predecessor, so where `OverlapIff` allows two runs of the modem's name at once, their counters can interleave
- Event branches other than health (power, SNR, channels, modulation, errors, restart) and all message texts
- Installing and removing modules: these edit the disabled set while the loader still holds the old list
- Registering an accepted plan with the web application, contribution preflight, discovery of modules, import of blueprints
- Sockets, select, reply matching, DNS and the ICMPv6 packet of the probe helper, whose checksum the kernel computes
- Flask, Jinja, SQLite, HTTP, MQTT, translations, exports, demo data: libraries, I/O and presentation
