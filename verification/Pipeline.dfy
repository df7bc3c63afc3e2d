/** From a run to the analysis: what the run hands to its summary, and when the analysis accepts the summary. */
module Pipeline {
  import opened Common
  import opened Slots
  import opened Recorder
  import opened Scenario
  import opened Split
  import opened Measurement
  import opened Results
  import opened Summary
  import opened Runs
  import opened Analysis
  import L = Lifecycle
  import P = Polling

  // ---------- A successful run of a configuration ----------

  /** The run that a configuration asks for. */
  function PlanOf(c: Config, condition: Condition): L.Plan
    requires |c.scenario.fault.groups| >= 2
  {
    var pods, groups := PodMap(c.placements), c.scenario.fault.groups;
    L.Plan(condition.FaultRun?, c.scenario.fault.durationEpochs, c.scenario.methodology.postFaultObservationEpochs,
           PodsOf(pods, groups[0].participants), PodsOf(pods, groups[1].participants), c.targets)
  }

  /** A run of the configuration that returns a window, under any interleaving of its observer. */
  ghost predicate Succeeds(c: Config, condition: Condition, env: L.Env, w: L.RunWindow) {
    && ValidConfig(c)
    && var plan := PlanOf(c, condition);
    && L.Honest(plan, env) && L.RunSucceeds(plan, env) && L.IsRunWindow(plan, env, w)
  }

  function InitialSnapshot(condition: Condition, env: L.Env): Dataset {
    var wait := if condition.FaultRun? then env.atStart else env.boundary;
    if wait.Some? then wait.value else EMPTY_DATASET
  }

  function EndingSnapshot(env: L.Env): Dataset {
    if env.atEnd.Some? then env.atEnd.value else EMPTY_DATASET
  }

  /** What a run hands to its summary. */
  function EvidenceOf(condition: Condition, env: L.Env, w: L.RunWindow): Evidence {
    Evidence(InitialSnapshot(condition, env), EndingSnapshot(env), env.final, w.startSlot, w.endSlot,
             if condition.FaultRun? then env.removedAt else 0, w.removalSlot, w.recoveryComplete)
  }

  // ---------- What the waits have established ----------

  /** A successful run hands on snapshots that show every target in the first and the last slot of a window
      that ends no earlier than it starts, and the data only grow from one to the next. */
  lemma {:induction false} SuccessfulRunHasWaited(c: Config, condition: Condition, env: L.Env, w: L.RunWindow)
    requires Succeeds(c, condition, env, w)
    ensures w.startSlot <= w.endSlot && Waited(EvidenceOf(condition, env, w), SortNames(c.targets))
  {
    var plan := PlanOf(c, condition);
    var h :| L.Recorded(plan, env, h);
    L.StartObserved(plan, env, h);
    L.EndObserved(plan, env, h);
    L.DataGrow(plan, env, h);
    PermutationElements(SortNames(c.targets), c.targets);
  }

  /** Every epoch in the summary of a successful run is that of an observation recorded in the first or the
      last slot of the window. */
  lemma {:induction false} SuccessfulRunReportsObservedEpochs(
    c: Config, condition: Condition, env: L.Env, w: L.RunWindow, repetition: U64, split: RealizedSplit, r: RunSummary,
    i: nat)
    requires Succeeds(c, condition, env, w) && w.startSlot <= w.endSlot
    requires IsSummary(c, EvidenceOf(condition, env, w), condition, repetition, split, r) && i < |r.targets|
    ensures SeenAt(env.final.beacon, r.targets[i].target, w.startSlot, r.targets[i].startEpoch)
    ensures SeenAt(env.final.beacon, r.targets[i].target, w.endSlot, r.targets[i].endEpoch)
  {
    var e, names := EvidenceOf(condition, env, w), SortNames(c.targets);
    SuccessfulRunHasWaited(c, condition, env, w);
    assert Summarized(e, condition, names[i], ClientsOf(c.scenario.participants), TargetGroups(c),
                      Diverged(c, e, names), r.targets[i]);
    EpochsAreObserved(e, names, names[i]);
  }

  // ---------- The window ----------

  /** The three epochs of the window, where they lie, and when the recovery is measured from. */
  ghost predicate WindowOf(c: Config, condition: Condition, env: L.Env, w: L.RunWindow) {
    && env.timing.Some? && env.boundary.Some? && c.targets != []
    && env.timing.value.slotsPerEpoch > 0 && w.startSlot % env.timing.value.slotsPerEpoch == 0
    && w.endSlot == w.startSlot + 3 * env.timing.value.slotsPerEpoch
    && match condition
       case ControlRun =>
         && CommonSlot(env.boundary.value.beacon, c.targets) == Some(w.startSlot)
         && w.removalSlot == w.endSlot && w.recoveryComplete
       case FaultRun =>
         && w.startSlot > 0 && CommonSlot(env.boundary.value.beacon, c.targets) == Some(w.startSlot - 1)
         && IsRemovalSlot(env.afterRemoval.beacon, c.targets, w.endSlot, w.removalSlot)
         && (w.recoveryComplete <==> env.recovery.Satisfied?)
  }

  /** The plan asks for three fault and four recovery epochs of the configuration. */
  ghost predicate IsPlan(c: Config, condition: Condition, plan: L.Plan) {
    && |c.scenario.fault.groups| >= 2
    && (plan.isFault <==> condition.FaultRun?) && plan.targets == c.targets != []
    && plan.durationEpochs == 3 && plan.postFaultEpochs == 4
    && plan.groupA == PodsOf(PodMap(c.placements), c.scenario.fault.groups[0].participants)
    && plan.groupB == PodsOf(PodMap(c.placements), c.scenario.fault.groups[1].participants)
  }

  lemma {:induction false} ThreeAndFourEpochs(c: Config, condition: Condition)
    requires ValidConfig(c)
    ensures IsPlan(c, condition, PlanOf(c, condition))
  {
  }

  lemma {:induction false} PlannedWindow(c: Config, condition: Condition, plan: L.Plan, env: L.Env, w: L.RunWindow)
    requires IsPlan(c, condition, plan) && L.Honest(plan, env) && L.RunSucceeds(plan, env)
    requires L.IsRunWindow(plan, env, w)
    ensures WindowOf(c, condition, env, w)
  {
    L.WindowOfRun(plan, env, w);
  }

  /** In every successful run of either condition the window is three whole epochs of the runtime's length: from
      the slot that all targets had reached in a control run, and from the one after it in a fault run. */
  lemma {:induction false} WindowMeaning(c: Config, condition: Condition, env: L.Env, w: L.RunWindow)
    requires Succeeds(c, condition, env, w)
    ensures WindowOf(c, condition, env, w)
  {
    ThreeAndFourEpochs(c, condition);
    PlannedWindow(c, condition, PlanOf(c, condition), env, w);
  }

  /** What a successful run has done, in order. A fault is given five epochs to live. */
  ghost predicate EventsOf(c: Config, condition: Condition, env: L.Env, w: L.RunWindow, events: seq<L.RunEvent>) {
    && env.timing.Some? && |c.scenario.fault.groups| >= 2
    && match condition
       case ControlRun =>
         events == [L.RawOpened, L.ObserverStarted, L.EndSnapshot(w.endSlot), L.ObserverStopped, L.RawClosed,
                    L.ManifestWritten, L.MetadataWritten(0), L.ChecksumsWritten]
       case FaultRun =>
         var pods, groups := PodMap(c.placements), c.scenario.fault.groups;
         var seconds := 5 * env.timing.value.slotsPerEpoch * env.timing.value.secondsPerSlot;
         var r := L.PartitionRequest(PodsOf(pods, groups[0].participants), PodsOf(pods, groups[1].participants),
                                     seconds * SECOND);
         events == [L.RawOpened, L.ObserverStarted, L.Apply(r, true), L.EndSnapshot(w.endSlot), L.Revert(r, true),
                    L.ObserverStopped, L.RawClosed, L.ManifestWritten, L.MetadataWritten(seconds), L.ChecksumsWritten]
  }

  lemma {:induction false} PlanEvents(c: Config, condition: Condition, plan: L.Plan, env: L.Env, w: L.RunWindow)
    requires IsPlan(c, condition, plan) && L.RunSucceeds(plan, env) && L.IsRunWindow(plan, env, w)
    requires L.WindowFollows(plan, env, w)
    ensures EventsOf(c, condition, env, w, L.RunEvents(plan, env))
  {
    if condition == ControlRun {
      L.SuccessfulControlRun(plan, env, w);
    } else {
      L.SuccessfulFaultRun(plan, env, w);
      FiveEpochs(plan, env);
    }
  }

  lemma {:induction false} FiveEpochs(plan: L.Plan, env: L.Env)
    requires plan.targets != [] && plan.isFault && plan.durationEpochs == 3 && L.RunSucceeds(plan, env)
    requires env.timing.value.slotsPerEpoch > 0 && env.timing.value.secondsPerSlot > 0
    ensures var seconds := 5 * env.timing.value.slotsPerEpoch * env.timing.value.secondsPerSlot;
            && L.Request(plan, env.timing.value) == L.PartitionRequest(plan.groupA, plan.groupB, seconds * SECOND)
            && seconds * SECOND / SECOND == seconds
  {
    DurationsAccepted(env.timing.value.slotsPerEpoch, env.timing.value.secondsPerSlot);
  }

  lemma {:induction false} PlannedEvents(c: Config, condition: Condition, plan: L.Plan, env: L.Env, w: L.RunWindow)
    requires IsPlan(c, condition, plan) && L.Honest(plan, env) && L.RunSucceeds(plan, env)
    requires L.IsRunWindow(plan, env, w)
    ensures EventsOf(c, condition, env, w, L.RunEvents(plan, env))
  {
    L.WindowOfRun(plan, env, w);
    PlanEvents(c, condition, plan, env, w);
  }

  lemma {:induction false} EventsMeaning(c: Config, condition: Condition, env: L.Env, w: L.RunWindow)
    requires Succeeds(c, condition, env, w)
    ensures EventsOf(c, condition, env, w, L.RunEvents(PlanOf(c, condition), env))
  {
    ThreeAndFourEpochs(c, condition);
    PlannedEvents(c, condition, PlanOf(c, condition), env, w);
  }

  // ---------- The recovery ----------

  /** The observations of the window's last slot that the recovery is measured against. */
  function EndObservations(c: Config, env: L.Env, w: L.RunWindow): map<Name, BeaconObservation> {
    AtSlotMap(EndingSnapshot(env).beacon, c.targets, w.endSlot)
  }

  /** Four epochs after the removal. */
  function FourEpochsOn(env: L.Env, w: L.RunWindow): nat
    requires env.timing.Some?
  {
    w.removalSlot + 4 * env.timing.value.slotsPerEpoch
  }

  /** The wait after the removal returned data recorded between the removal and the end, in which finality had
      moved on everywhere or four epochs had passed everywhere. */
  ghost predicate RecoveryWaited(c: Config, env: L.Env, w: L.RunWindow) {
    && env.timing.Some? && env.recovery.Satisfied?
    && Extends(EndingSnapshot(env), env.afterRemoval) && Extends(env.afterRemoval, env.recovery.tested)
    && Extends(env.recovery.tested, env.final)
    && FourEpochsOn(env, w) <= MAX_UINT64
    && WaitOver(env.recovery.tested.beacon, c.targets, EndObservations(c, env, w), FourEpochsOn(env, w))
  }

  /** In every successful fault run whose recovery window is complete. */
  lemma {:induction false} CompletedRecovery(c: Config, env: L.Env, w: L.RunWindow)
    requires Succeeds(c, FaultRun, env, w) && w.recoveryComplete
    ensures RecoveryWaited(c, env, w)
  {
    var plan := PlanOf(c, FaultRun);
    var h :| L.Recorded(plan, env, h);
    L.RemovalDataGrow(plan, env, h);
    L.RecoveryObserved(plan, env, h);
  }

  /** The latest observation that the wait saw of a target is from after the removal. */
  predicate SeenAfterRemoval(env: L.Env, w: L.RunWindow, t: Name)
    requires env.recovery.Satisfied? && t in Latest(env.recovery.tested.beacon)
  {
    var last := Latest(env.recovery.tested.beacon)[t];
    last.timestamp >= env.removedAt && last.currentSlot >= w.removalSlot
  }

  /** Some observation recorded after the wait shows the target's recovery. */
  ghost predicate RecoversLater(env: L.Env, w: L.RunWindow, t: Name, endEpoch: U64)
    requires env.recovery.Satisfied? && Extends(env.recovery.tested, env.final)
  {
    exists o :: o in env.final.beacon[|env.recovery.tested.beacon|..]
      && ShowsRecovery(o, t, endEpoch, env.removedAt, w.removalSlot)
  }

  /** What the end of the wait says about one target of the summary. If the wait saw the target's finality past
      that of the window's end, the target has a recovery value exactly when that observation is from after the
      removal, or a later record shows recovery. Otherwise all targets were seen at the censor slot or later. */
  ghost predicate RecoveryExplained(env: L.Env, w: L.RunWindow, t: TargetResult, targets: seq<Name>) {
    && env.timing.Some? && env.recovery.Satisfied? && Extends(env.recovery.tested, env.final)
    && var latest := Latest(env.recovery.tested.beacon);
    && t.target in latest && t.target in targets
    && (latest[t.target].finalizedEpoch > t.endEpoch ==>
          (t.recovery.Some? <==> SeenAfterRemoval(env, w, t.target) || RecoversLater(env, w, t.target, t.endEpoch)))
    && (latest[t.target].finalizedEpoch <= t.endEpoch ==>
          forall s :: s in targets ==> s in latest && latest[s].currentSlot >= FourEpochsOn(env, w))
  }

  /** A complete recovery window of a successful fault run explains every recovery value of its summary. */
  lemma {:induction false} RecoveryMeaning(
    c: Config, env: L.Env, w: L.RunWindow, repetition: U64, split: RealizedSplit, r: RunSummary, i: nat,
    n: P.Network, polls: seq<P.Poll>)
    requires Succeeds(c, FaultRun, env, w) && w.recoveryComplete && w.startSlot <= w.endSlot
    requires IsSummary(c, EvidenceOf(FaultRun, env, w), FaultRun, repetition, split, r) && i < |r.targets|
    requires env.final.beacon == P.Observations(n, polls) && P.ClockForward(polls, r.targets[i].target)
    ensures RecoveryExplained(env, w, r.targets[i], c.targets)
  {
    CompletedRecovery(c, env, w);
    P.RunInSlotOrder(n, polls, r.targets[i].target);
    ExplainRecovery(c, env, w, repetition, split, r, i);
  }

  lemma {:induction false} ResultIsListed(c: Config, e: Evidence, condition: Condition, repetition: U64,
                                          split: RealizedSplit, r: RunSummary, i: nat)
    requires e.startSlot <= e.endSlot && IsSummary(c, e, condition, repetition, split, r) && i < |r.targets|
    ensures r.targets[i].target in c.targets && IsTargetResult(e, condition, r.targets[i].target, r.targets[i])
  {
    var names := SortNames(c.targets);
    assert Summarized(e, condition, names[i], ClientsOf(c.scenario.participants), TargetGroups(c),
                      Diverged(c, e, names), r.targets[i]);
    PermutationElements(names, c.targets);
  }

  lemma {:induction false} ExplainRecovery(
    c: Config, env: L.Env, w: L.RunWindow, repetition: U64, split: RealizedSplit, r: RunSummary, i: nat)
    requires RecoveryWaited(c, env, w) && w.startSlot <= w.endSlot
    requires IsSummary(c, EvidenceOf(FaultRun, env, w), FaultRun, repetition, split, r) && i < |r.targets|
    requires SlotsRespectTime(env.final.beacon, r.targets[i].target)
    ensures RecoveryExplained(env, w, r.targets[i], c.targets)
  {
    ResultIsListed(c, EvidenceOf(FaultRun, env, w), FaultRun, repetition, split, r, i);
    ExplainResult(c, env, w, r.targets[i]);
  }

  lemma {:induction false} ExplainResult(c: Config, env: L.Env, w: L.RunWindow, t: TargetResult)
    requires RecoveryWaited(c, env, w) && SlotsRespectTime(env.final.beacon, t.target)
    requires t.target in c.targets && IsTargetResult(EvidenceOf(FaultRun, env, w), FaultRun, t.target, t)
    ensures RecoveryExplained(env, w, t, c.targets)
  {
    var ends := EndObservations(c, env, w);
    assert ends[t.target].finalizedEpoch == t.endEpoch;
    WaitMeaning(env.recovery.tested.beacon, env.final.beacon, c.targets, ends, FourEpochsOn(env, w), t.target,
                env.removedAt, w.removalSlot, t.recovery);
  }

  // ---------- The partition ----------

  /** A successful fault run of a valid configuration has split the network as the scenario says: each group's
      pods on a side of their own, none of them missing, for three epochs of the runtime's length. */
  lemma {:induction false} FaultRunPartitions(c: Config, env: L.Env, w: L.RunWindow)
    requires Succeeds(c, FaultRun, env, w)
    ensures w.endSlot == w.startSlot + 3 * env.timing.value.slotsPerEpoch
    ensures var plan, pods, groups := PlanOf(c, FaultRun), PodMap(c.placements), c.scenario.fault.groups;
            var events := L.RunEvents(plan, env);
            && |events| > 4 && events[2].Apply? && events[2].ok && events[4] == L.Revert(events[2].request, true)
            && events[2].request.groupA == PodsOf(pods, groups[0].participants)
            && events[2].request.groupB == PodsOf(pods, groups[1].participants)
    ensures forall k, i :: 0 <= k < 2 && 0 <= i < |c.scenario.fault.groups[k].participants| ==> HasPod(c, k, i)
  {
    RequestedSides(PlanOf(c, FaultRun), env, w);
    EveryMemberHasPod(c);
  }

  lemma {:induction false} RequestedSides(plan: L.Plan, env: L.Env, w: L.RunWindow)
    requires plan.targets != [] && plan.isFault && L.RunSucceeds(plan, env) && L.IsRunWindow(plan, env, w)
    ensures var events := L.RunEvents(plan, env);
            && |events| > 4 && events[2].Apply? && events[2].ok && events[4] == L.Revert(events[2].request, true)
            && events[2].request.groupA == plan.groupA && events[2].request.groupB == plan.groupB
  {
    L.SuccessfulFaultRun(plan, env, w);
  }

  lemma {:induction false} EveryMemberHasPod(c: Config)
    requires ValidConfig(c)
    ensures forall k, i :: 0 <= k < 2 && 0 <= i < |c.scenario.fault.groups[k].participants| ==> HasPod(c, k, i)
  {
    forall k, i | 0 <= k < 2 && 0 <= i < |c.scenario.fault.groups[k].participants| ensures HasPod(c, k, i) {
      PartitionHasEveryMember(c.scenario.participants, c.scenario.fault, c.placements, k, i);
    }
  }

  /** A member's pod on its side is the one of its placement. */
  ghost predicate HasPod(c: Config, k: nat, i: nat)
    requires k < |c.scenario.fault.groups| && i < |c.scenario.fault.groups[k].participants|
  {
    var ids := c.scenario.fault.groups[k].participants;
    exists pl :: pl in c.placements && pl.participantID == ids[i] && pl.pod != NO_NAME
      && PodsOf(PodMap(c.placements), ids)[i] == pl.pod
  }

  // ---------- The analysis accepts the summary ----------

  /** A summary of a valid configuration passes every check of one run exactly when each participant holds
      some balance. */
  lemma {:induction false} SummaryIsAccepted(
    c: Config, e: Evidence, condition: Condition, repetition: U64, ranges: seq<ValidatorRange>, vs: seq<Validator>,
    split: RealizedSplit, r: RunSummary)
    requires ValidConfig(c) && ParseRunID(c.runID) == Some((condition, repetition)) && e.startSlot <= e.endSlot
    requires Calculable(c.scenario, ranges, vs) && IsRealizedSplit(c.scenario, ranges, vs, split)
    requires IsSummary(c, e, condition, repetition, split, r)
    ensures RunAccepted(c.scenario, r) <==> EveryoneHolds(c.scenario, ranges, vs)
    ensures FromClient(vs) ==> RunAccepted(c.scenario, r)
  {
    CalculatorAgreesWithValidator(c.scenario, ranges, vs, split);
    if FromClient(vs) {
      ClientSplitsAreAccepted(c.scenario, ranges, vs, split);
    }
  }

  /** What one successful run publishes, with what it was computed from. */
  datatype Publication = Publication(
    config: Config, condition: Condition, repetition: U64, env: L.Env, window: L.RunWindow,
    ranges: seq<ValidatorRange>, validators: seq<Validator>, split: RealizedSplit, summary: RunSummary)

  ghost predicate Published(s: Scenario, p: Publication) {
    && AcceptedConfig(p.config) && p.config.scenario == s
    && ParseRunID(p.config.runID) == Some((p.condition, p.repetition))
    && Succeeds(p.config, p.condition, p.env, p.window) && p.window.startSlot <= p.window.endSlot
    && FromClient(p.validators) && Calculable(s, p.ranges, p.validators)
    && IsRealizedSplit(s, p.ranges, p.validators, p.split)
    && IsSummary(p.config, EvidenceOf(p.condition, p.env, p.window), p.condition, p.repetition, p.split, p.summary)
  }

  function Summaries(ps: seq<Publication>): (rs: seq<RunSummary>)
    ensures |rs| == |ps| && forall i :: 0 <= i < |ps| ==> rs[i] == ps[i].summary
  {
    seq(|ps|, i requires 0 <= i < |ps| => ps[i].summary)
  }

  /** One dependency closure, and no two runs with the same id. */
  ghost predicate DifferentRuns(ps: seq<Publication>) {
    forall i, j :: 0 <= i < j < |ps| ==>
      ps[i].config.runID != ps[j].config.runID && ps[i].config.dependencies == ps[j].config.dependencies
  }

  ghost predicate AllPublished(s: Scenario, ps: seq<Publication>) {
    DifferentRuns(ps) && forall p {:trigger Published(s, p)} :: p in ps ==> Published(s, p)
  }

  /** The summaries of six successful runs of one scenario, with different ids and one dependency closure, are
      accepted by the analysis, whatever happened in the runs. */
  lemma {:induction false} SixRunsAreAnalyzed(s: Scenario, ps: seq<Publication>, r: Result<Analysis>)
    requires |ps| == 6 && AllPublished(s, ps) && Decides(s, Summaries(ps), r)
    ensures r.Ok?
  {
    AllPass(s, ps);
    PassedRunsAccepted(s, ps);
  }

  lemma {:induction false} PassedRunsAccepted(s: Scenario, ps: seq<Publication>)
    requires |ps| == 6 && forall i :: 0 <= i < |ps| ==> PassesChecks(s, ps[i].config, ps[i].summary)
    requires DifferentRuns(ps)
    ensures Accepted(s) && RunsAccepted(s, Summaries(ps))
  {
    var rs := Summaries(ps);
    assert PassesChecks(s, ps[0].config, ps[0].summary);
    forall i | 0 <= i < 6 ensures RunAccepted(s, rs[i]) {
      assert PassesChecks(s, ps[i].config, ps[i].summary);
    }
    forall i, j | 0 <= i < j < 6 ensures Comparable(rs[i], rs[j]) {
      assert PassesChecks(s, ps[i].config, ps[i].summary) && PassesChecks(s, ps[j].config, ps[j].summary);
    }
  }

  lemma {:induction false} AllPass(s: Scenario, ps: seq<Publication>)
    requires AllPublished(s, ps)
    ensures forall i :: 0 <= i < |ps| ==> PassesChecks(s, ps[i].config, ps[i].summary)
  {
    forall i | 0 <= i < |ps| ensures PassesChecks(s, ps[i].config, ps[i].summary) {
      PublicationIsAccepted(s, ps[i]);
    }
  }

  ghost predicate PassesChecks(s: Scenario, c: Config, r: RunSummary) {
    && Accepted(s) && |s.methodology.runOrder| == 6 && RunAccepted(s, r)
    && r.runID == c.runID && r.dependencies == c.dependencies
  }

  lemma {:induction false} PublicationIsAccepted(s: Scenario, p: Publication)
    requires Published(s, p)
    ensures PassesChecks(s, p.config, p.summary)
  {
    SummaryIsAccepted(p.config, EvidenceOf(p.condition, p.env, p.window), p.condition, p.repetition, p.ranges,
                      p.validators, p.split, p.summary);
  }
}
