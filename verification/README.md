# Ethquake verification model

Ethquake measures the nodes of an Ethereum network, injects a network partition, and adjudicates six
preregistered runs through Gates A, B and C. This project models the parts of it that are state
machines, refinements or arithmetic, and proves what they promise.

| file | what it models |
|---|---|
| `Common.dfy`, `Text.dfy` | Go's uint64, optional values, sorting, names, lists without repetition; decimal texts |
| `Reorg.dfy` | the execution reorg tracker, its unlimited twin, and the block tree its depth speaks about |
| `Reconnect.dfy` | the execution observer's reconnect loop and its backoff |
| `HeadComparator.dfy` | the comparator of Beacon heads with its bounded slot map (module `HeadComparison`) |
| `Recorder.dfy` | the run's dataset recorder, the wakeup protocol of many writers and one waiter, and what its waits return |
| `Waits.dfy` | the conditions the run waits for, and the data that answer them under every interleaving |
| `Compatibility.dfy` | the agreement of the targets' runtime specs, in the observer and on stored metadata |
| `Scenario.dfy` | the committed scenario, its validation, and the counting facts that follow |
| `Split.dfy` | validator ranges, the realized split's calculator, and its independent validator |
| `Slots.dfy` | slot, duration and deadman arithmetic with Go's widths |
| `Polling.dfy` | the observer's polls, what a run of them records, and the slot order that follows |
| `Lifecycle.dfy` | one run: backend calls, resources, window and artifacts, under every environment, exactly when it succeeds, and where its data come from |
| `Measurement.dfy` | the scans over a run's observations: latest observation, divergence, gaps, recovery |
| `Results.dfy` | run identity, dependency metadata, and when a window can be used as evidence |
| `Summary.dfy` | configuration, placements, the partition request, and the summary a run emits |
| `Gates.dfy`, `GateC.dfy` | the measures behind the gates, and what Gate C means |
| `Runs.dfy`, `Analysis.dfy` | the acceptance of the six runs, and their adjudication |
| `Acceptance.dfy`, `Admission.dfy` | what an accepted scenario, configuration or set of runs looks like, in flat terms |
| `Attribution.dfy` | what parsed ranges and realized splits say, in terms of the ranges owned by name |
| `Reports.dfy`, `Verdicts.dfy` | what a summary says of the records, and an analysis of the runs |
| `Pipeline.dfy` | from a configuration's run to its summary, and from six summaries to their acceptance by the analysis |
| `EarlyFinality.dfy` | a whole fault run, from its polls to its window, in which no target has a recovery value |
| `Examples.dfy` | a valid scenario of four validators, and inputs outside some of the conditions below |

Functions and predicates say what is computed; classes and methods have the form of the Go code and are
proved against them; lemmas relate several calls, or speak about every run. The lemmas named `...Meaning`
say what those functions and predicates amount to in the source's own terms, with its literal texts and
numbers. Where Go ranges over a map,
the method picks the keys in an arbitrary order. `sort.Slice` and `sort.Strings` are an ordered
permutation (`Common.Sort`).

## What the proofs found

Six promises hold only under a condition. In each case the code is modelled as it is, the condition is
exact where the lemma says "exactly", and a lemma gives an input outside the condition.

* **One map for two kinds of names.** The summary keeps the groups of participants and of beacon targets
  in one map. Its targets get the right groups exactly when no beacon target is the id of a later
  participant of another group (`RegroupIsRight`, `SummaryIsEvidence`). Scenario validation does not check
  this (`ValidationMissesCollision`).
* **Zero tolerance is not "exactly half".** The scenario accepts shares within 1e-12 of one half. With
  shares of exactly one half, a split is within tolerance exactly when each group holds half of the
  balance (`WithinToleranceIsHalf`); in a valid scenario with shares 1e-13 off, an uneven split can be
  (`UnevenWithinTolerance`).
* **Reorg depth is the fork distance exactly when the new head is not already listed**
  (`DepthIsForkDistance`): a head that is an older listed block is measured to its parent
  (`ListedHeadCountsToParent`).
* **Spec compatibility is not transitive.** The observer compares all targets with its first one, the
  metadata check with the first participant. Accepted targets agree pairwise exactly when they also agree
  on the forks the reference does not schedule (`AcceptedAgree`, `ReferenceDecides`,
  `StoredSpecsAcceptedAgain`).
* **The recovery wait ignores the removal.** It can end because finality had moved on before the fault was
  removed. A target whose finality the wait saw move on then has a recovery value exactly when that
  observation is from after the removal, or something recorded after the wait shows recovery
  (`RecoveredWaitMeansRecovery`, `WaitMeaning`; for every complete fault run `RecoveryMeaning`). In a run
  that polls can have produced no target has one (`EarlyFinalityIsNoRecovery`).
* **The per-slot disagreement depends on the order of the targets** exactly when one of them was not
  observed in the slot and two of the others report different heads (`OrderIrrelevantExactly`,
  `OrderMattersWhenMissing`). In a complete slot it means that two targets differ (`DisagreeMeaning`).

Three more would fail on inputs the code never gives them.

* **The split validator wants positive weights.** It accepts what the calculator returns exactly when every
  participant holds a positive balance, which the calculator does not check (`CalculatorAgreesWithValidator`,
  `ZeroBalanceIsRefused`). The Beacon client refuses a validator without balance
  (`internal/beacon/client.go:307-309`), so the two agree on every list it returns (`Validators`,
  `ClientSplitsAreAccepted`).
* **Key-by-key comparison of a map with every other is equality exactly when it has no empty value**
  (`MapsAgreeExactly`, `AgreeNeedsValidation`). The analysis validates dependency metadata before it compares
  (`internal/experiment/analysis.go:263-272`), and the loader validates before it accepts
  (`internal/experiment/io.go:149-154`), so wherever the comparison decides it is equality (`AgreeIsEqual`).
* **The comparator's signature separates root maps only for newline-free roots** (`SignatureInjective`,
  `NewlinesCollide`); roots are parsed as hexadecimal.

Two checks turn out never to refuse: six accepted runs always include every committed id, so "required run
is missing" cannot occur (`NoRunMissing`), and the order derived from the seed is always a permutation of
the six ids (`DerivedIsPermutation`). The divergence counter is a uint64, so the largest tolerance could
never be exceeded; the scenario fixes it to one slot. Three additions and multiplications of a run are not
guarded against overflow; they are exact whenever the neighbouring guarded ones are accepted and slots have
a length (`DeadmanBoundsTheRest`, `UnguardedSumsExact`, `DoublingWraps`).

## Model

| member | source | states |
|---|---|---|
| Reorg.ReorgTracker.NewReorgTracker | internal/observer/reorg.go:32-40 | a tracker exists exactly for a named target and a limit of at least two, and starts empty |
| Reorg.ReorgTracker.Observe | internal/observer/reorg.go:42-101 | one observation changes the list and answers as the specification functions `NextChain` and `Answer` say, which the lemmas below speak about |
| Reorg.ReorgTracker.CanonicalIndex | internal/observer/reorg.go:103-110 | the backward loop finds the newest entry with the hash, or none |
| Reorg.ReorgTracker.AppendCanonical | internal/observer/reorg.go:112-115 | appending drops the oldest entries beyond the limit |
| Reorg.ReorgTracker.TrimCanonical | internal/observer/reorg.go:117-123 | trimming keeps the newest `historyLimit` entries |
| Reorg.ReorgTracker.Reset | internal/observer/reorg.go:125-128 | a reset leaves only the new head |
| Reorg.WindowInvariant | internal/observer/reorg.go:42-128 | on every run the list is hash-linked, consecutively numbered and within the limit |
| Reorg.ReorgTracker.ObserveChild | internal/observer/reorg.go:57-100 | a head that is not the tip: the retained parent decides between going on, going back with a reorg, and starting again |
| Reorg.ObservationMeaning | internal/observer/reorg.go:42-128 | on every run, case by case: a repeated tip changes nothing and is continuous; a child of the tip is appended; a retained parent gives a reorg from the tip to the head with the number of entries dropped; a head further on is a gap of those two numbers; any other head starts the list again, with a reorg of unknown depth from the tip |
| Reorg.KnownDepthCountsDropped | internal/observer/reorg.go:57-80 | on every run a known depth lies between 1 and the limit less one and is the number of entries dropped |
| Reorg.ParentNeverAboveTip | internal/observer/reorg.go:59-67 | on every run the test for a parent above the tip never decides anything |
| Reorg.BoundedRefinesUnbounded | internal/observer/reorg.go:42-128 | on every run the bounded list is a suffix of the unlimited one with the same tip; known depths agree, and where only the unlimited tracker knows the depth it is at least the retained length and is not reported as a sequence gap |
| Reorg.DepthIsForkDistance | internal/observer/reorg.go:57-80 | on every run through a block tree, a known depth is the distance from the tip to the lowest common ancestor exactly when the new head is not already listed |
| Examples.ListedHeadCountsToParent | internal/observer/reorg.go:57-80 | going back to a listed block one below the tip reports a depth of two |
| Reorg.NoFalseGap | internal/observer/reorg.go:59-67 | on every run through a block tree a listed parent is never reported as a non-successor |
| Reconnect.RunTarget | internal/observer/execution_observer.go:111-186 | for every sequence of subscriptions: the loop ends with the first round that is cancelled, whose failure the recorder refuses, or whose wait is cancelled; each wait begun is min(initial·2^k, maximum) after k further headless failures, within the bounds; the records are those of a fresh tracker per subscription |
| Reconnect.Backoff | internal/observer/execution_observer.go:166-184 | one wait resets after a head and otherwise doubles up to the maximum without overflow |
| Reconnect.NextDelayIsNextPower | internal/observer/execution_observer.go:178-184 | halving the maximum to test for overflow is exact for even and odd maxima |
| Reconnect.DelayGrows | internal/observer/execution_observer.go:178-184 | delays never shrink without a head, and stop growing exactly when the power has reached the maximum |
| Reconnect.Subscribe | internal/observer/execution_observer.go:114-149 | a subscription records what a tracker without history answers to each head, and of the last head what the recorder takes |
| Reconnect.Deliver | internal/observer/execution_observer.go:118-148 | a head, then its gap, then its reorg are recorded, up to the first record that is refused |
| Reconnect.NothingAfterEnd | internal/observer/execution_observer.go:150-177 | after the round that ends the loop no later round changes records, waits or outcome |
| Reconnect.EntriesMeaning | internal/observer/execution_observer.go:118-148 | the records of one head: the head with its continuity first, then the gap if there is one, then the reorg if there is one, and nothing else |
| Reconnect.RoundMeaning | internal/observer/execution_observer.go:114-165 | one round tells of every head whose record was taken, in order, and of one failed subscription exactly when it was not cancelled and the failure was recorded |
| Reconnect.LoopMeaning | internal/observer/execution_observer.go:111-186 | for every sequence of rounds the loop ends with the first that is cancelled, whose failure is not recorded, or whose wait is cancelled, with an error only in the second case; there is one wait for each recorded failure, and the log tells of the heads of all rounds played |
| Reconnect.DelayMeaning | internal/observer/execution_observer.go:166-184 | a wait is the initial delay after a head or at first, and otherwise twice the one before, up to the maximum |
| HeadComparison.HeadComparator.NewHeadComparator | internal/observer/head_comparator.go:32-54 | a comparator exists exactly for at least two distinct nonempty targets and a limit of at least two; targets are sorted |
| HeadComparison.HeadComparator.Observe | internal/observer/head_comparator.go:56-103 | one observation changes the slot map and emits a comparison as the specification function `Step` says |
| HeadComparison.HeadComparator.Describe | internal/observer/head_comparator.go:71-91 | the loop over the targets yields their signature, roots and agreement, or finds one missing |
| HeadComparison.HeadComparator.TrimSlots | internal/observer/head_comparator.go:105-117 | trimming keeps exactly the greatest slots within the limit |
| HeadComparison.AgreementMeaning | internal/observer/head_comparator.go:73-90 | the running comparison decides whether all roots are equal |
| HeadComparison.SignatureInjective | internal/observer/head_comparator.go:71-95 | equal signatures mean equal roots for every target when roots have no newline |
| HeadComparison.GreatestStable | internal/observer/head_comparator.go:105-117 | forgetting early is harmless: the greatest slots of the kept ones and a new one are the greatest of all |
| HeadComparison.RetainsGreatestSlots | internal/observer/head_comparator.go:56-117 | on every run the comparator holds exactly the greatest slots seen, each with the latest root per target and the signature of the last comparison |
| HeadComparison.EmitsExpected | internal/observer/head_comparator.go:56-117 | on every run the comparison emitted is what unlimited history calls for when the slot is retained, and none otherwise |
| HeadComparison.NothingLostWithinLimit | internal/observer/head_comparator.go:105-117 | while no more slots were seen than the limit, nothing is lost |
| HeadComparison.NewlinesCollide | internal/observer/head_comparator.go:71-95 | two different root maps with newlines share a signature |
| Recorder.DatasetRecorder.constructor | internal/observer/dataset_recorder.go:31-37 | a new recorder holds nothing and its channel is empty |
| Recorder.DatasetRecorder.RecordSpec | internal/observer/dataset_recorder.go:43-50 | the spec and genesis are added and the token is set |
| Recorder.DatasetRecorder.RecordBeacon | internal/observer/dataset_recorder.go:52-58 | the observation is appended and the token is set |
| Recorder.DatasetRecorder.RecordHeadComparison | internal/observer/dataset_recorder.go:60-67 | the comparison is appended and the token is set |
| Recorder.DatasetRecorder.RecordPollFailure | internal/observer/dataset_recorder.go:69-75 | the failure is appended and the token is set |
| Recorder.DatasetRecorder.Snapshot | internal/observer/dataset_recorder.go:77-100 | a snapshot is the recorded data and changes nothing |
| Recorder.NoLostWakeup | internal/observer/dataset_recorder.go:43-107 | under every interleaving, a waiter that is blocked with an empty channel last tested a snapshot holding every record whose call has completed |
| Recorder.SatisfiedWaitEnds | internal/orchestrator/runner.go:436-449 | once all calls have completed and the data meets the condition, a blocked waiter has a token to receive and then ends |
| Recorder.InvariantHolds | internal/observer/dataset_recorder.go:43-107 | the protocol invariant holds in every reachable state |
| Recorder.WaitsGrow | internal/orchestrator/runner.go:436-449 | under every interleaving, each wait that ends by its test returns a snapshot that meets its condition, a later wait returns one that extends it, and the final data extend both |
| Recorder.ReadThenWait | internal/orchestrator/runner.go:226-248 | what a wait returns extends every snapshot taken before it |
| Waits.AnswerMeets | internal/orchestrator/runner.go:372-434 | whatever a wait of the run returns meets the condition of that wait and holds only the targets' data |
| Compatibility.SpecCompatible | internal/beacon/client.go:37-47 | the loop over one side's forks decides the symmetric meaning of compatibility |
| Compatibility.Initialize | internal/observer/observer.go:183-208 | accepted exactly when every target agrees with the first, whose spec and genesis are kept |
| Compatibility.AcceptedAgree | internal/observer/observer.go:183-205 | accepted targets share timing and genesis, and agree pairwise exactly when they agree on the forks the reference lacks |
| Compatibility.ReferenceMatters | internal/observer/observer.go:183-205 | acceptance under every choice of the reference is pairwise agreement |
| Compatibility.ReferenceDecides | internal/observer/observer.go:183-205 | three targets that are accepted or refused depending on the reference |
| Compatibility.ValidateRuntimeMetadata | internal/experiment/io.go:184-221 | accepted exactly when every target's metadata is present, complete and well spelled, and agrees with the first participant's |
| Compatibility.EpochRoundTrip | internal/experiment/io.go:199-204 | parsing and formatting again accepts exactly the decimal forms of uint64 values |
| Compatibility.StoredSpecsAcceptedAgain | internal/experiment/io.go:184-221 | what the observer accepted is accepted again exactly when the first participant agrees with all on the forks the observer's reference lacks |
| Compatibility.MetadataMeaning | internal/experiment/io.go:184-221 | accepted exactly when specs and genesis data are as many as the targets, each target's have positive timing, named forks at decimal epochs and full hexadecimal roots and versions, and all agree with the first |
| Polling.PollAndRecord | internal/observer/observer.go:243-319 | a poll records an observation or the failure of one of its three steps, then the comparator's comparison if there is a comparator and it emits one; nothing when it is cancelled, only what is taken when a recorder refuses, and it fails exactly then |
| Polling.RunIsRecorded | internal/observer/observer.go:224-319 | on every run of polls the dataset holds exactly the polls' observations and exactly the comparisons a complete history calls for while their slots are retained, as far as they were taken |
| Polling.PollMeaning | internal/observer/observer.go:243-308 | from the reply and the time alone: a failed reply, a time in no slot, and finality from the future leave the failure of that name; otherwise the observation carries the reply's head and finality and the slot that contains the time; a cancelled poll leaves nothing |
| Polling.RunMeaning | internal/observer/observer.go:224-319 | on every run of polls the gaps are exactly the failures of the taken polls, in order, the new observations exactly those the polls show, and specs and genesis stay as they were |
| Polling.RunStamped | internal/observer/observer.go:243-319 | on every run of polls each observation carries the slot containing its timestamp, no finality from the future, and a target's observations are in the order of time |
| Polling.RunInSlotOrder | internal/observer/observer.go:224-334 | on every run of polls a target's observations are in slot order, as recorded and by time |
| Polling.RecoveryIsLeast | internal/orchestrator/runner.go:480-490 | on every run of polls the recovery is the least distance among all observations that show it |
| Scenario.ValidateTopology | internal/scenario/scenario.go:180-235 | accepted exactly for four participants with valid names that share no id, target, range name or service; indexed by id |
| Scenario.CheckServices | internal/scenario/scenario.go:204-220 | accepted exactly when the service ids are valid and differ from each other and from all earlier ones |
| Scenario.ValidateFault | internal/scenario/scenario.go:237-296 | two disjoint groups of equal configured weight (modulo 2^64, as the loop adds) that together hold every participant |
| Scenario.ValidateMethodology | internal/scenario/scenario.go:311-345 | three repetitions of each kind, a seed, and a run order that is a permutation of the six ids and the one derived from the seed |
| Scenario.DeriveRunOrder | internal/scenario/scenario.go:385-405 | the ids in the order of their digests |
| Scenario.DerivedIsPermutation | internal/scenario/scenario.go:324-343 | every derived order is a permutation of the ids, so a seed's order always passes the check for one |
| Scenario.DerivedAscends | internal/scenario/scenario.go:385-405 | no id in the derived order has a smaller digest than one before it |
| Scenario.OrderMeaning | internal/scenario/scenario.go:338-343 | when the digests differ, the derived order is the one permutation of the ids with ascending digests |
| Scenario.ValidateMixedGroups | internal/scenario/scenario.go:363-383 | at least two client families, all of them in every group |
| Scenario.Validate | internal/scenario/scenario.go:135-168 | the whole scenario is accepted exactly when its header, topology, fault, thresholds, methodology and groups are |
| Scenario.OneOfEachFamily | internal/scenario/scenario.go:180-383 | a valid scenario has exactly two families, and each group holds exactly one participant of each |
| Acceptance.TopologyMeaning | internal/scenario/scenario.go:180-235 | accepted exactly for four participants whose names follow their patterns, with some validators, different ids, targets and range names, and twelve different services |
| Acceptance.FaultMeaning | internal/scenario/scenario.go:237-383 | fault and mixed groups are accepted exactly when the two groups are pairs of four different participants with the same two clients on both sides and as many validators |
| Acceptance.AcceptedMeaning | internal/scenario/scenario.go:135-383 | the accepted scenarios are exactly those of this shape, with the fixed texts, thresholds, repetitions, epochs and derived order |
| Split.ParseValidatorRanges | internal/topology/realized_split.go:75-111 | accepted exactly when there are entries, every text has two ends, and all ranges are well formed and pairwise disjoint; the result is the same ranges in increasing order |
| Split.KeyMeaning | internal/topology/realized_split.go:79-90 | a text has ends exactly when it is two decimal uint64 texts with a hyphen between them |
| Attribution.ParseMeaning | internal/topology/realized_split.go:75-111 | entries are accepted exactly when there are some, each is two decimal uint64 numbers in order with an owner, and no two overlap |
| Attribution.ListMeaning | internal/topology/realized_split.go:78-111 | the returned list has exactly the entries' ranges, each ending before the next begins |
| Split.ParseOrderIndependent | internal/topology/realized_split.go:75-111 | neither the verdict nor the list depends on the order in which the map is ranged over |
| Split.FindOwner | internal/topology/realized_split.go:143-153 | the loop computes the specification function `Attributed`, on any list of ranges |
| Split.SearchFindsOwner | internal/topology/realized_split.go:143-153 | in disjoint ranges the binary search attributes every index as a linear scan does |
| Split.ParsedAttribution | internal/topology/realized_split.go:78-153 | in the ranges the parser returns, every index is attributed to the range that holds it, or to none |
| Split.OwnerIsUnique | internal/topology/realized_split.go:143-153 | in accepted ranges no other range contains the index |
| Split.CalculateRealizedSplit | internal/topology/realized_split.go:114-202 | for any scenario and any list of ranges: a split is returned exactly when every range, validator and count fits and the total fits uint64; it then holds each participant's balance and count and each group's sum, modulo 2^64, and share |
| Attribution.RangeNameMeaning | internal/topology/realized_split.go:121-125 | ranges are owned under the participants' range names and under no others, and each name stands for its participant's id |
| Attribution.AttributionMeaning | internal/topology/realized_split.go:132-153 | in parsed ranges a validator belongs to a participant exactly when a range under the participant's range name holds its index, and to nobody exactly when no range holds it |
| Attribution.CalculableMeaning | internal/topology/realized_split.go:114-184 | a split is returned exactly when there are ranges and validators, every owner is a range name, every validator is in a range, the balances held are positive and fit uint64, and each participant holds its number of validators |
| Attribution.SplitMeaning | internal/topology/realized_split.go:165-202 | every figure of a returned split is that of the validators in the ranges under the participants' names: balances, counts, total, the groups' sums and shares, and the verdict on the tolerance |
| Split.Conservation | internal/topology/realized_split.go:142-160 | weights of the participants sum to the total balance, counts to the number of validators |
| Split.SplitConserves | internal/topology/realized_split.go:114-202 | in every returned split participants and groups each sum to the total |
| Split.ValidateRealizedSplit | internal/topology/validation.go:51-133 | for any scenario: accepted exactly when all aggregates and the verdict recompute from the participants |
| Attribution.SplitAcceptedMeaning | internal/topology/validation.go:51-133 | for a valid scenario, accepted exactly when four participants are recorded once each with their counts and some balance, the total adds them up, both groups add up their two members with the right share, and the verdict on the tolerance follows |
| Split.CalculatorAgreesWithValidator | internal/topology/validation.go:51-133 | what the calculator returns is accepted exactly when every participant holds a positive balance |
| Examples.ZeroBalanceIsRefused | internal/topology/validation.go:79-81 | a valid scenario, ranges and validators whose split can be calculated and is refused |
| Split.PositiveBalancesAreAccepted | internal/topology/realized_split.go:114-202 | positive validator balances and counts suffice for acceptance |
| Split.Validators | internal/beacon/client.go:277-318 | accepted exactly when there are validators, each once, active and with a balance; returned in order |
| Split.ClientSplitsAreAccepted | internal/topology/validation.go:51-133 | whatever list the client returned, its calculated split is accepted |
| Split.WithinToleranceIsHalf | internal/topology/realized_split.go:185-200 | with zero tolerance and shares of one half, within tolerance means that each group holds half |
| Examples.UnevenWithinTolerance | internal/topology/realized_split.go:185-200 | a valid scenario with shares slightly off one half, ranges and validators whose calculated split is uneven and within tolerance |
| Slots.Multiply | internal/orchestrator/runner.go:715-720 | the product, refused exactly when it exceeds uint64 |
| Slots.RuntimeDuration | internal/orchestrator/runner.go:707-713 | the duration in nanoseconds, refused exactly when it exceeds an int64 |
| Slots.CurrentSlotContains | internal/observer/observer.go:321-334 | the current slot is the one that contains the time; the error cases are exact |
| Slots.SlotsFollowTime | internal/observer/observer.go:321-334 | a later time is never in an earlier slot |
| Slots.FinalityLag | internal/observer/observer.go:348-360 | the slots since the finalized epoch began, refused exactly when there is no such number |
| Slots.StoredDeadmanIsExpected | internal/experiment/io.go:172-180 | the stored deadman seconds are what the metadata check recomputes |
| Slots.DeadmanCoversWindow | internal/orchestrator/runner.go:161-168 | a fault applied no earlier than the slot before the boundary does not expire before the end slot is over, with two epochs less two slots to spare |
| Slots.DeadmanBoundsTheRest | internal/orchestrator/runner.go:143-244 | once the time to live is accepted no later duration is refused and no unguarded operation wraps |
| Slots.UnguardedSumsExact | internal/orchestrator/runner.go:143-213 | in a control run too, accepted timeouts were computed without wrapping |
| Slots.DoublingWraps | internal/orchestrator/runner.go:143 | the unguarded doubling alone can wrap unnoticed by its own timeout |
| Slots.DurationsAccepted | internal/orchestrator/runner.go:143-213 | a fault run's time to live is accepted exactly when five epochs fit a duration, and the timeouts of a control run exactly when four do |
| Lifecycle.Run | internal/orchestrator/runner.go:56-294 | under every environment: a window is returned exactly when `RunSucceeds`, with exactly the preregistered slots; the events are exactly `RunEvents` and in order; after every successful Apply a Revert with its request follows; everything opened is closed |
| Lifecycle.HonestBoundary | internal/orchestrator/runner.go:138-204 | whatever the interleaving, the first two waits have established positive constants and a common slot in its place of the epoch |
| Lifecycle.StartObserved | internal/orchestrator/runner.go:152-204 | every target was observed in the first slot of the window |
| Lifecycle.RemovalDataGrow | internal/orchestrator/runner.go:214-262 | the data only grow from the end of the window over the removal and the wait after it to the end of the run |
| Lifecycle.RecoveryObserved | internal/orchestrator/runner.go:237-252 | the wait after the removal returned data that end it at the censor slot of the run |
| Lifecycle.Session.Begin | internal/orchestrator/runner.go:56-204 | everything up to the first slot of the window: its exact events, and success exactly when `Begins` |
| Lifecycle.Session.Inject | internal/orchestrator/runner.go:152-194 | succeeds exactly when the boundary was seen, the time to live fits, Apply succeeded, no target was past the boundary when it returned, and the start slot was observed; the window then starts after the boundary |
| Lifecycle.Session.Measure | internal/orchestrator/runner.go:205-219 | succeeds exactly when the end slot and the timeout fit and the end slot was observed; the end slot is the start plus the duration |
| Lifecycle.Session.Remove | internal/orchestrator/runner.go:221-253 | one Revert; succeeds exactly when it did, the recovery window fits and its wait did not fail; yields the removal slot and whether the wait was cut short |
| Lifecycle.Session.Publish | internal/orchestrator/runner.go:256-293 | each artifact is written only when all before it went well, after the observer has stopped and the raw file is closed; succeeds exactly when all went well |
| Lifecycle.Session.Conclude | internal/orchestrator/runner.go:221-293 | everything after the end snapshot: its exact events, and success exactly when the removal and the publication succeed |
| Lifecycle.Session.CleanUp | internal/orchestrator/runner.go:171-178 | after any failure the deferred calls try the removal of an injected fault and leave nothing running or open; after a success they do nothing |
| Lifecycle.RevertsFollowApply | internal/orchestrator/runner.go:168-230 | one Apply at most; every Revert follows it with the same request, and none follows a successful one |
| Lifecycle.ManifestAfterRemoval | internal/orchestrator/runner.go:225-266 | the manifest follows the end snapshot and, after an Apply, a successful Revert |
| Lifecycle.AppliedIsReverted | internal/orchestrator/runner.go:170-185 | on every run each successful Apply is followed by a Revert with the same request |
| Lifecycle.BeginsAtEpoch | internal/orchestrator/runner.go:150-204 | every window begins at an epoch boundary |
| Lifecycle.SuccessfulFaultRun | internal/orchestrator/runner.go:150-293 | the exact events of a successful fault run, with the stored seconds that the metadata check recomputes |
| Lifecycle.SuccessfulControlRun | internal/orchestrator/runner.go:195-293 | the exact events of a successful control run: no backend call, one end snapshot, and the artifacts with zero deadman seconds |
| Lifecycle.WindowOfRun | internal/orchestrator/runner.go:150-252 | in every successful run the window ends the configured number of epochs after it starts, in the slot that all targets had reached or, after an injection, in the next one |
| Lifecycle.SuccessMeaning | internal/orchestrator/runner.go:56-293 | a run of three and four epochs succeeds exactly when nothing it asks for fails, no target was seen past the boundary when Apply had returned, and durations and slots fit their types |
| Lifecycle.ControlRunTouchesNothing | internal/orchestrator/runner.go:195-293 | a control run never calls the backend, however it ends |
| Lifecycle.FaultCoversWindow | internal/orchestrator/runner.go:161-219 | in every successful fault run no target had been observed at or after the start slot when Apply had returned, and the fault cannot expire by itself before the end slot is over |
| Measurement.ObservationAtSlot | internal/orchestrator/runner.go:649-662 | computes the specification function `AtSlot` |
| Measurement.AtSlotIsLatest | internal/orchestrator/runner.go:649-662 | the result is a latest observation of the target in the slot, absent exactly when there is none |
| Reports.AtSlotMeaning | internal/orchestrator/runner.go:649-662 | among observations of one time the first recorded is taken |
| Measurement.LatestByTarget | internal/orchestrator/runner.go:638-647 | computes the specification function `Latest` |
| Measurement.LatestIsLatest | internal/orchestrator/runner.go:638-647 | every target with an observation has its latest one |
| Reports.NewestMeaning | internal/orchestrator/runner.go:638-647 | a target's latest observation is the first recorded of those with the greatest time |
| Measurement.ExactSlotObserved | internal/orchestrator/runner.go:403-416 | true exactly when every target was observed in the slot |
| Measurement.CommonLatestSlot | internal/orchestrator/runner.go:624-636 | computes the specification function `CommonSlot` |
| Measurement.CommonSlotIsComplete | internal/orchestrator/runner.go:389-401 | every target was observed in the common slot of their latest observations |
| Measurement.LatestSlotExceeds | internal/orchestrator/runner.go:362-370 | true exactly when some target's latest observation is past the slot |
| Measurement.NothingBeyond | internal/orchestrator/runner.go:362-370 | false exactly when no observation at all is past the slot, when slots respect time |
| Measurement.FindRemovalSlot | internal/orchestrator/runner.go:229-236 | the greatest of the end slot and all targets' latest slots, in any order of the map |
| Reports.RemovalMeaning | internal/orchestrator/runner.go:229-236 | the removal slot is the end slot unless every target was observed, and then the greatest of it and the slots of the targets' latest observations |
| Measurement.HeadsDisagreeAtCurrentSlot | internal/orchestrator/runner.go:606-622 | true exactly when a target disagrees with the first before any target is missing |
| Measurement.DisagreeMeaning | internal/orchestrator/runner.go:606-622 | with complete observations: true exactly when two targets report different heads |
| Measurement.OrderIrrelevantExactly | internal/orchestrator/runner.go:606-622 | every order of the targets decides alike exactly when all were observed in the slot or those that were report one head |
| Measurement.OrderMattersWhenMissing | internal/orchestrator/runner.go:606-622 | the same data of four targets disagree or not depending on their order |
| Measurement.HeadDivergenceExceeded | internal/orchestrator/runner.go:588-604 | exceeded exactly when tolerance + 1 consecutive slots of the window disagree; terminates up to the largest slot |
| Measurement.PrimaryMeasurementGaps | internal/orchestrator/runner.go:545-571 | the gaps are exactly the poll failures of the window and the missing observations |
| Measurement.NoPrimaryGaps | internal/orchestrator/runner.go:545-571 | no gaps exactly when every target was observed at every slot and no poll failed in the window |
| Measurement.LatestTimestamp | internal/orchestrator/runner.go:681-689 | the latest timestamp, in whatever order the map is ranged over |
| Measurement.RecoveryMeasurementGaps | internal/orchestrator/runner.go:537-543 | exactly the poll failures since the removal, and the window being cut short |
| Measurement.LatestDatasetTimestamp | internal/orchestrator/runner.go:573-586 | the latest timestamp of all observations and failures |
| Measurement.RecoverySlots | internal/orchestrator/runner.go:480-490 | absent exactly when no observation shows recovery, otherwise that of the first that does, which is the least when a target's slots are in order; no underflow |
| Measurement.RecoveredOrCensored | internal/orchestrator/runner.go:418-434 | the wait is over exactly when all targets are past the window's finality or all have reached the censor slot |
| Measurement.RecoveredWaitMeansRecovery | internal/orchestrator/runner.go:418-490 | a target whose finality the wait's snapshot shows past the window's end has a recovery value in the final data exactly when that observation is from after the removal or a later record shows recovery |
| Measurement.WaitMeaning | internal/orchestrator/runner.go:418-490 | when the wait is over, each target is explained by the above or all targets were seen at the censor slot |
| EarlyFinality.EarlyFinalityIsNoRecovery | internal/orchestrator/runner.go:150-490 | a fault run that polls produce succeeds with a complete recovery window although no target has a recovery value |
| EarlyFinality.DataArePolled | internal/observer/observer.go:243-319 | its data are exactly what polls of the targets leave behind |
| Results.RunIDRoundTrip | internal/experiment/analysis.go:440-449 | an id parses to a condition and repetition exactly when it is built from them |
| Results.CommittedIsNamed | internal/orchestrator/runner.go:691-705 | every id of a valid run order names a condition and a repetition |
| Results.IdMeaning | internal/experiment/analysis.go:440-449 | each condition and repetition is named by exactly one of the six ids |
| Results.ValidateDependencies | internal/experiment/analysis.go:451-482 | accepted exactly when the revision and every package are full commit ids, and every image is pinned to one digest |
| Results.PinMeaning | internal/experiment/analysis.go:451-482 | an image is pinned exactly when it is a name without the digest mark, the mark, and 64 lower-case hexadecimal digits |
| Results.DependenciesEqual | internal/experiment/analysis.go:484-499 | decides the key-by-key agreement, in any map order |
| Results.AgreeIsEqual | internal/experiment/analysis.go:484-499 | on validated metadata the agreement is equality |
| Results.MapsAgreeExactly | internal/experiment/analysis.go:484-499 | comparing a map with every other is equality exactly when it has no empty value |
| Results.AgreeNeedsValidation | internal/experiment/analysis.go:484-499 | without validation it is not symmetric |
| Results.GroupsByParticipant | internal/orchestrator/runner.go:455-461 | computes the specification function `GroupOf` |
| Results.GroupOfMembers | internal/experiment/analysis.go:136-140 | with disjoint groups the map holds each member's own group |
| Summary.ValidatePlacements | internal/topology/validation.go:13-47 | accepted exactly when filled, on different nodes, equally provisioned, and each participant has its exact target |
| Summary.ValidateConfig | internal/orchestrator/runner.go:297-339 | accepted exactly when the scenario, run id, resources, targets, namespace, placements and dependencies are valid; yields the run's identity |
| Admission.ConfigMeaning | internal/orchestrator/runner.go:297-339 | accepted exactly for an accepted scenario, one of the six run ids, four different targets of participants, one filled placement each on nodes of their own and equal machines, pinned dependencies, and the needed clients, limits and namespace |
| Summary.TargetsCovered | internal/orchestrator/runner.go:310-322 | four distinct known targets are all the participants' targets |
| Summary.PartitionSides | internal/orchestrator/runner.go:341-360 | the two sides are the pods of the two groups' members, in order |
| Summary.PartitionCoversPlacements | internal/orchestrator/runner.go:341-360 | every placed pod of a participant is on one of the two sides |
| Summary.PartitionHasEveryMember | internal/orchestrator/runner.go:341-360 | every member's pod is the nonempty one of its own placement |
| Summary.ClientsAndGroups | internal/orchestrator/runner.go:462-469 | the nested loops compute the clients and the shared group map `Regroup` |
| Summary.RegroupIsRight | internal/orchestrator/runner.go:455-469 | every target gets its participant's group exactly when there is no harmful collision |
| Summary.SummarizeTarget | internal/orchestrator/runner.go:473-502 | epochs, exact progress or regression, and recovery only in fault runs |
| Summary.SummarizeRun | internal/orchestrator/runner.go:451-528 | the summary's window, results, completeness verdicts and gaps |
| Reports.SummaryMeaning | internal/orchestrator/runner.go:451-528 | everything in a summary follows from the records: the epochs are those of the latest observations in the start and end slot, progress their difference, recovery the first observation that shows it, divergence two consecutive slots with different heads, and each gap and both verdicts have a recorded cause |
| Summary.CompletenessMeaning | internal/orchestrator/runner.go:471-523 | primary complete exactly when all slots are observed, no poll failed and no finality regressed; recovery complete exactly when observed to its end without failures |
| Summary.DivergenceMeaning | internal/orchestrator/runner.go:470 | for a complete window: exceeded exactly when two targets differ in each of two consecutive slots |
| Summary.SummaryIsEvidence | internal/experiment/analysis.go:295-322 | for a valid configuration a summary passes the analysis' window check exactly when it is complete, the split is within tolerance and there is no harmful collision |
| Summary.EpochsAreObserved | internal/orchestrator/runner.go:403-475 | after the waits, each epoch of a summary is that of a recorded observation in the start or end slot |
| Summary.TimesAreObserved | internal/orchestrator/runner.go:508-509 | after the waits, the window's times are those of recorded observations in the start and end slot |
| Summary.CompleteMeansObserved | internal/orchestrator/runner.go:545-561 | in a complete summary every target has a recorded observation in every slot of the window |
| Examples.ValidationMissesCollision | internal/scenario/scenario.go:180-235 | a valid scenario with a harmful collision |
| Gates.MaximumProgress | internal/experiment/analysis.go:324-332 | computes the greatest progress |
| Gates.MinimumProgress | internal/experiment/analysis.go:334-342 | computes the least progress |
| Gates.ExtremesApart | internal/experiment/analysis.go:155-165 | comparing the extremes compares every fault target with every control target |
| Gates.UniformProgress | internal/experiment/analysis.go:388-399 | true exactly for equal progress of a nonempty list |
| Gates.PrimaryWindowValid | internal/experiment/analysis.go:295-322 | true exactly when complete, within tolerance, controlled, and four distinct known targets have the right client, group and exact progress |
| Gates.SummarizePermutation | internal/experiment/analysis.go:427-438 | a statistic does not depend on the order of its values |
| Gates.SummarizeExtremes | internal/experiment/analysis.go:427-438 | its minimum and maximum are those of the values |
| Gates.RecoveryByGroupAndClient | internal/experiment/analysis.go:401-416 | refused exactly when a target has no recovery or shares side and client with another; otherwise holds all recoveries |
| Gates.AttributableMeans | internal/experiment/analysis.go:401-416 | what being refused means, and that each target is found under its side and client |
| Gates.ScanGroups | internal/experiment/analysis.go:371-382 | the loop-carried direction is right for every group, or no direction is |
| Gates.EvaluateGateC | internal/experiment/analysis.go:344-386 | true exactly when all repetitions differ in one direction |
| GateC.WindowHasOneEach | internal/experiment/analysis.go:371-374 | in a usable window each side holds exactly one target of each family, so no lookup misses |
| GateC.GateCExact | internal/experiment/analysis.go:344-425 | after Gates A and B the scan is true exactly when control progress is uniform and one fixed family is slower by the threshold on both sides in all three repetitions |
| Runs.CheckRuns | internal/experiment/analysis.go:247-277 | accepted exactly when every run is well formed and any two have different ids and equal dependencies |
| Admission.RunsMeaning | internal/experiment/analysis.go:243-293 | six runs are accepted exactly when each has the schema, the id of its condition and repetition, pinned dependencies and an acceptable split, no id occurs twice, and all share one dependency closure |
| Runs.NoRunMissing | internal/experiment/analysis.go:278-285 | the accepted ids are exactly the committed ones, so no required run can be missing |
| Runs.ValidateRuns | internal/experiment/analysis.go:243-293 | accepted exactly when the runs are; yields a permutation of them in the committed order, and by repetition |
| Runs.TrialUnique | internal/experiment/analysis.go:278-292 | the accepted runs determine order and repetitions |
| Runs.TrialIsPermutation | internal/experiment/analysis.go:278-292 | the ordered runs of a trial are the given runs, each as often |
| Analysis.ScanPairs | internal/experiment/analysis.go:142-171 | the evidence of the usable pairs, and Gate A exactly |
| Analysis.RecoveryStatistics | internal/experiment/analysis.go:216-230 | each client's statistic, in any order of runs and clients |
| Analysis.AnalyzeTrial | internal/experiment/analysis.go:111-240 | the whole analysis, with the gates' outcomes in their order |
| Verdicts.UsableMeaning | internal/experiment/analysis.go:295-322 | a window is usable exactly when it is complete, even and controlled and reports four different targets, each with its participant's client and group and its own progress |
| Verdicts.PairsMeaning | internal/experiment/analysis.go:142-171 | exactly the repetitions with two usable windows are listed, in order, each with the least control progress, the greatest fault progress and how far the one exceeds the other |
| Verdicts.StatisticMeaning | internal/experiment/analysis.go:427-438 | a statistic has the values in order, their middle, and their extremes |
| Verdicts.QuestionsAgree | internal/experiment/analysis.go:142-239 | the gates ask of the recorded progress, recovery, client and group of each target just what their rules say |
| Verdicts.VerdictMeaning | internal/experiment/analysis.go:165-240 | the outcome and classification of each gate and the conclusion, in each of the five cases, from those questions |
| Verdicts.RecoveryByClientMeaning | internal/experiment/analysis.go:206-230 | past Gate B exactly the participants' clients have a statistic, each of the latest recovery of its targets in the three fault runs |
| Analysis.Analyze | internal/experiment/analysis.go:107-241 | refused exactly for an invalid scenario or unacceptable runs; otherwise the analysis of the trial |
| Verdicts.AnalysisMeaning | internal/experiment/analysis.go:107-241 | an analysis lists the runs in the committed order and files them by condition and repetition; its evidence, statistics, gates and conclusion are those that the runs call for |
| Analysis.GatesAllowC | internal/experiment/analysis.go:231-239 | past Gate B every recovery is present and Gate C is exact |
| Analysis.StatisticsCoverFamilies | internal/experiment/analysis.go:216-230 | past Gate B the statistics have exactly the two families with three values each |
| Analysis.OrderIndependent | internal/experiment/analysis.go:107-293 | every order of the runs gives the same verdict and the same analysis |
| Pipeline.SuccessfulRunHasWaited | internal/orchestrator/runner.go:152-219 | under every interleaving, every successful run of a configuration hands on snapshots in which each target was seen in the first and the last slot, each extended by the next |
| Pipeline.WindowMeaning | internal/orchestrator/runner.go:150-252 | every successful run of a valid configuration, of either condition, has a window of exactly three epochs that begins at an epoch; a control run counts as removed at its end with a complete recovery |
| Pipeline.EventsMeaning | internal/orchestrator/runner.go:56-293 | the exact events of every successful run; the partition of a fault run has the groups' pods and five epochs to live, which are also its stored seconds |
| Pipeline.SuccessfulRunReportsObservedEpochs | internal/orchestrator/runner.go:152-475 | each epoch in the summary of a successful run is that of an observation recorded in the first or last slot |
| Pipeline.CompletedRecovery | internal/orchestrator/runner.go:221-252 | a complete recovery window means that data recorded between the removal and the end show finality moved on everywhere or four epochs passed everywhere |
| Pipeline.RecoveryMeaning | internal/orchestrator/runner.go:221-490 | in the summary of every complete fault run, what each recovery value and each missing one means |
| Pipeline.FaultRunPartitions | internal/orchestrator/runner.go:152-230 | every successful fault run of a valid configuration applied and removed the partition of its groups' pods, none missing, over a window of three epochs |
| Pipeline.SummaryIsAccepted | internal/experiment/analysis.go:247-277 | a valid configuration's summary passes every check of one run exactly when each participant holds balance, and always when the validators come from the client |
| Pipeline.SixRunsAreAnalyzed | internal/experiment/analysis.go:107-293 | the summaries of six successful runs of one scenario, with different ids and one dependency closure, are accepted by the analysis |

## Left out

- Error texts, and the reason texts of the gates: success and error cases are modelled, their wording is not.
- HTTP, WebSocket, kubectl, files, clocks and contexts: they appear as answers chosen by the environment. Telemetry, JSON Lines, Markdown, SVG and the command line are output only.
- The timeouts of the waits are answers of the environment; what the waits return is derived from the recorder's protocol.
- Polls of different targets follow one another in `Polling`: between a poll's record and its comparison no other poll takes place.
- The decoding of the validator ranges' YAML document; its entries are the input of `Split.ParseValidatorRanges`.
- SHA-256 itself: its values for the order seed and the six run ids are inputs of `Scenario.DeriveRunOrder`.
- The run id and namespace that a partition request also carries.
- Summary.SummarizeRun: the text order of the gap list, and gap texts that coincide, are not modelled; gaps are values.
- Shares, tolerances and medians are exact reals: IEEE rounding is not modelled, and calculator and validator use the same exact quotient.
- Timestamps are natural numbers with zero for Go's zero time; time zones and the report's generation time are not modelled.
- Mutexes are modelled as atomic steps of the recorder's protocol; the comparator and the tracker as sequential objects, as their locks make them.
- The comparison of the stored files with each other, checksums and symbolic links in the loader of run summaries.
- The assertion engine, the cloud scripts and the Kubernetes discovery.
