/** One run of the orchestrator: its calls to the fault backend, its resources, and its slot window. */
module Lifecycle {
  import opened Common
  import opened Slots
  import opened Recorder
  import opened Measurement
  import opened Waits

  datatype PartitionRequest = PartitionRequest(groupA: seq<Name>, groupB: seq<Name>, ttl: nat)

  datatype RunEvent =
    | RawOpened
    | ObserverStarted
    | Apply(request: PartitionRequest, ok: bool)
    | EndSnapshot(slot: U64)
    | Revert(request: PartitionRequest, ok: bool)
    | ObserverStopped
    | RawClosed
    | ManifestWritten
    | MetadataWritten(deadmanSeconds: nat)
    | ChecksumsWritten

  // ---------- What a trace may look like ----------

  datatype Backend =
    | Untouched
    | Refused                                            // Apply failed
    | Injected(request: PartitionRequest, attempts: nat) // applied, with the failed reverts so far
    | Removed(request: PartitionRequest)

  datatype Resource = Unused | InUse | Released

  datatype Monitor = Monitor(
    backend: Backend, raw: Resource, observer: Resource, ended: bool, published: bool, legal: bool)

  const FRESH := Monitor(Untouched, Unused, Unused, false, false, true)

  /** A monitor that reads a trace event by event and notices every event out of place. */
  function Delta(m: Monitor, e: RunEvent): Monitor {
    match e
    case RawOpened => m.(raw := InUse, legal := m.legal && m.raw.Unused?)
    case ObserverStarted => m.(observer := InUse, legal := m.legal && m.raw.InUse? && m.observer.Unused?)
    case Apply(r, ok) =>
      m.(backend := if ok then Injected(r, 0) else Refused,
         legal := m.legal && m.backend.Untouched? && m.observer.InUse? && !m.published)
    case EndSnapshot(_) =>
      m.(ended := true, legal := m.legal && m.observer.InUse? && !m.ended && !m.backend.Removed? && !m.backend.Refused?)
    case Revert(r, ok) =>
      var proper := m.backend.Injected? && m.backend.request == r;
      m.(backend := if !proper then m.backend else if ok then Removed(r) else Injected(r, m.backend.attempts + 1),
         legal := m.legal && proper && m.backend.attempts <= 1 && m.observer.InUse? && !m.published)
    case ObserverStopped =>
      m.(observer := Released,
         legal := m.legal && m.observer.InUse? && (m.backend.Injected? ==> m.backend.attempts >= 1))
    case RawClosed => m.(raw := Released, legal := m.legal && m.raw.InUse? && !m.observer.InUse?)
    case ManifestWritten =>
      m.(published := true, legal := m.legal && m.ended && m.raw.Released? && !m.backend.Injected? && !m.published)
    case MetadataWritten(_) => m.(legal := m.legal && m.published)
    case ChecksumsWritten => m.(legal := m.legal && m.published)
  }

  function MonitorOf(trace: seq<RunEvent>): Monitor {
    if trace == [] then FRESH else Delta(MonitorOf(trace[..|trace| - 1]), trace[|trace| - 1])
  }

  ghost predicate Legal(trace: seq<RunEvent>) {
    MonitorOf(trace).legal
  }

  // ---------- What a legal trace means ----------

  ghost predicate AppliedAt(trace: seq<RunEvent>, i: nat, r: PartitionRequest) {
    i < |trace| && trace[i] == Apply(r, true)
  }

  /** On a legal trace the backend state says exactly what was done to the backend. */
  ghost predicate BackendHistory(trace: seq<RunEvent>, b: Backend) {
    && (b.Untouched? <==> forall e :: e in trace ==> !e.Apply? && !e.Revert?)
    && (b.Refused? ==> forall e :: e in trace ==> !e.Revert? && (e.Apply? ==> !e.ok))
    && (b.Injected? ==>
          && (exists i :: AppliedAt(trace, i, b.request))
          && (forall e :: e in trace && e.Revert? ==> e.request == b.request && !e.ok)
          && (b.attempts > 0 <==> exists e :: e in trace && e.Revert?))
    && (b.Removed? ==> Revert(b.request, true) in trace && exists i :: AppliedAt(trace, i, b.request))
  }

  lemma {:induction false} LegalPrefix(trace: seq<RunEvent>, n: nat)
    requires Legal(trace) && n <= |trace|
    ensures Legal(trace[..n])
    decreases |trace|
  {
    if n < |trace| {
      LegalPrefix(trace[..|trace| - 1], n);
      assert trace[..|trace| - 1][..n] == trace[..n];
    } else {
      assert trace[..n] == trace;
    }
  }

  lemma {:induction false} BackendMeaning(trace: seq<RunEvent>)
    requires Legal(trace)
    ensures BackendHistory(trace, MonitorOf(trace).backend)
  {
    if trace != [] {
      var init, e := trace[..|trace| - 1], trace[|trace| - 1];
      assert trace == init + [e];
      BackendMeaning(init);
      OneMoreEvent(init, e);
    }
  }

  lemma {:induction false} OneMoreEvent(init: seq<RunEvent>, e: RunEvent)
    requires BackendHistory(init, MonitorOf(init).backend) && Delta(MonitorOf(init), e).legal
    ensures BackendHistory(init + [e], Delta(MonitorOf(init), e).backend)
  {
    var b, c, trace := MonitorOf(init).backend, Delta(MonitorOf(init), e).backend, init + [e];
    assert trace[|init|] == e && forall x :: x in trace <==> x in init || x == e;
    if e.Apply? && e.ok {
      assert AppliedAt(trace, |init|, e.request);
    } else if b.Injected? || b.Removed? {
      var i :| AppliedAt(init, i, b.request);
      assert AppliedAt(trace, i, b.request);
    }
  }

  /** On a legal trace there is at most one Apply, and a Revert comes after it with its request. */
  lemma {:induction false} RevertsFollowApply(trace: seq<RunEvent>, j: nat)
    requires Legal(trace) && j < |trace|
    ensures trace[j].Revert? ==> exists i: nat :: i < j && AppliedAt(trace, i, trace[j].request)
    ensures trace[j].Apply? ==> forall i :: 0 <= i < j ==> !trace[i].Apply? && !trace[i].Revert?
    ensures trace[j].Revert? ==> forall i :: 0 <= i < j && trace[i].Revert? ==> !trace[i].ok
  {
    LegalPrefix(trace, j);
    LegalPrefix(trace, j + 1);
    assert trace[..j + 1][..j] == trace[..j];
    BackendMeaning(trace[..j]);
    assert forall i :: 0 <= i < j ==> trace[i] in trace[..j];
    if trace[j].Revert? {
      var i :| AppliedAt(trace[..j], i, trace[j].request);
      assert AppliedAt(trace, i, trace[j].request);
    }
  }

  /** On a legal trace the manifest is written after the end snapshot and never while a fault is injected:
      an earlier successful Apply has been followed by a successful Revert with the same request. */
  lemma {:induction false} ManifestAfterRemoval(trace: seq<RunEvent>, k: nat, i: nat, r: PartitionRequest)
    requires Legal(trace) && i < k < |trace| && trace[k].ManifestWritten? && AppliedAt(trace, i, r)
    ensures exists j :: i < j < k && trace[j] == Revert(r, true)
    ensures exists j, s :: 0 <= j < k && trace[j] == EndSnapshot(s)
  {
    var before := trace[..k];
    LegalPrefix(trace, k);
    LegalPrefix(trace, k + 1);
    assert trace[..k + 1][..k] == before;
    BackendMeaning(before);
    assert before[i] == Apply(r, true) && Apply(r, true) in before;
    var request := MonitorOf(before).backend.request;
    var a :| AppliedAt(before, a, request);
    OnlyApply(before, i, r);
    var j :| 0 <= j < k && before[j] == Revert(r, true);
    RevertsFollowApply(trace, j);
    OnlyApply(trace, i, r);
    EndedMeans(before);
    var e, s :| 0 <= e < k && before[e] == EndSnapshot(s);
    assert trace[e] == EndSnapshot(s) && trace[j] == Revert(r, true);
  }

  lemma {:induction false} OnlyApply(trace: seq<RunEvent>, i: nat, r: PartitionRequest)
    requires Legal(trace) && AppliedAt(trace, i, r)
    ensures forall k, q :: AppliedAt(trace, k, q) ==> k == i && q == r
  {
    forall k, q | AppliedAt(trace, k, q) ensures k == i && q == r {
      RevertsFollowApply(trace, k);
      RevertsFollowApply(trace, i);
    }
  }

  lemma {:induction false} EndedMeans(trace: seq<RunEvent>)
    ensures MonitorOf(trace).ended ==> exists j, s :: 0 <= j < |trace| && trace[j] == EndSnapshot(s)
  {
    if trace != [] {
      EndedMeans(trace[..|trace| - 1]);
    }
  }

  // ---------- The run and its environment ----------

  /** How the wait after the removal ended, with the snapshot it returned. */
  datatype Recovery = Satisfied(tested: Dataset) | DeadlineExceeded | Failed

  datatype Plan = Plan(
    isFault: bool, durationEpochs: U64, postFaultEpochs: U64, groupA: seq<Name>, groupB: seq<Name>, targets: seq<Name>)

  datatype Timing = Timing(slotsPerEpoch: U64, secondsPerSlot: U64)

  /** What the clock, the backend, the observer and the filesystem answer. */
  datatype Env = Env(
    prepared: bool,            // everything before the raw file is created
    rawCreated: bool,
    recordersReady: bool,
    timing: Option<Timing>,    // waitForSpecsAndHeads
    boundary: Option<Dataset>, // waitForCommonSlot
    applied: bool,
    afterApply: Dataset,       // when Apply has returned
    atStart: Option<Dataset>,  // waitForExactSlot at the start slot
    atEnd: Option<Dataset>,    // waitForExactSlot at the end slot
    reverted: bool,
    removedAt: nat,            // the clock when Revert has returned
    afterRemoval: Dataset,     // the data then
    recovery: Recovery,        // waitForRecoveryOrCensor
    stopped: bool, closed: bool,
    final: Dataset,            // when the observer has stopped
    manifestWritten: bool, metadataWritten: bool, checksummed: bool,
    cleanupReverted: bool)

  /** The slot that all targets had reached when the wait for the boundary ended. */
  function BoundarySlot(c: Plan, env: Env): U64
    requires c.targets != []
  {
    if env.boundary.None? then 0 else
    var slot := CommonSlot(env.boundary.value.beacon, c.targets);
    if slot.Some? then slot.value else 0
  }

  datatype RunWindow = RunWindow(startSlot: U64, endSlot: U64, removalSlot: U64, recoveryComplete: bool)

  // ---------- When each step succeeds ----------

  predicate Started(env: Env) {
    env.prepared && env.rawCreated && env.recordersReady && env.timing.Some?
  }

  predicate BoundaryTimed(t: Timing) {
    RuntimeDuration(t.secondsPerSlot, Wrap(2 * t.slotsPerEpoch)).Ok?
  }

  /** The run comes to call Apply. */
  predicate CallsApply(c: Plan, env: Env, t: Timing) {
    env.boundary.Some? && DeadmanTTL(c.durationEpochs, t.slotsPerEpoch, t.secondsPerSlot).Ok?
  }

  /** The request a fault run makes, with the time to live computed from the runtime constants. */
  function Request(c: Plan, t: Timing): PartitionRequest
    requires DeadmanTTL(c.durationEpochs, t.slotsPerEpoch, t.secondsPerSlot).Ok?
  {
    PartitionRequest(c.groupA, c.groupB, DeadmanTTL(c.durationEpochs, t.slotsPerEpoch, t.secondsPerSlot).value)
  }

  /** The fault was injected before any target was seen past the boundary, and the start slot was observed. */
  ghost predicate Injects(c: Plan, env: Env, t: Timing)
    requires c.targets != []
  {
    && CallsApply(c, env, t) && env.applied
    && !Exceeds(env.afterApply.beacon, c.targets, BoundarySlot(c, env))
    && BoundarySlot(c, env) != MAX_UINT64 && env.atStart.Some?
  }

  /** The run reaches the first slot of its window. */
  ghost predicate Begins(c: Plan, env: Env)
    requires c.targets != []
  {
    && Started(env) && BoundaryTimed(env.timing.value)
    && if c.isFault then Injects(c, env, env.timing.value) else env.boundary.Some?
  }

  function StartSlot(c: Plan, env: Env): nat
    requires c.targets != []
  {
    if c.isFault then BoundarySlot(c, env) + 1 else BoundarySlot(c, env)
  }

  function EndSlot(c: Plan, t: Timing, startSlot: nat): nat {
    startSlot + c.durationEpochs * t.slotsPerEpoch
  }

  predicate Measures(c: Plan, env: Env, t: Timing, startSlot: nat) {
    && EndSlot(c, t, startSlot) <= MAX_UINT64
    && RuntimeDuration(t.secondsPerSlot, Wrap(c.durationEpochs * t.slotsPerEpoch + t.slotsPerEpoch)).Ok?
    && env.atEnd.Some?
  }

  ghost predicate Recovers(c: Plan, env: Env, t: Timing, endSlot: U64) {
    && env.reverted
    && RemovalSlot(env.afterRemoval.beacon, c.targets, endSlot) + c.postFaultEpochs * t.slotsPerEpoch <= MAX_UINT64
    && RuntimeDuration(t.secondsPerSlot, Wrap(c.postFaultEpochs * t.slotsPerEpoch + t.slotsPerEpoch)).Ok?
    && !env.recovery.Failed?
  }

  predicate Publishes(env: Env) {
    env.stopped && env.closed && env.manifestWritten && env.metadataWritten && env.checksummed
  }

  ghost predicate Concludes(c: Plan, env: Env, t: Timing, endSlot: U64) {
    (c.isFault ==> Recovers(c, env, t, endSlot)) && Publishes(env)
  }

  ghost predicate Finishes(c: Plan, env: Env, t: Timing, startSlot: nat) {
    Measures(c, env, t, startSlot) && Concludes(c, env, t, EndSlot(c, t, startSlot))
  }

  /** Exactly what has to go well for a run to return a summary. */
  ghost predicate RunSucceeds(c: Plan, env: Env)
    requires c.targets != []
  {
    Begins(c, env) && Finishes(c, env, env.timing.value, StartSlot(c, env))
  }

  // ---------- What each step does ----------

  function StartEvents(env: Env): seq<RunEvent> {
    if !env.prepared || !env.rawCreated then []
    else if !env.recordersReady then [RawOpened]
    else if env.timing.None? then [RawOpened, ObserverStarted, ObserverStopped]
    else [RawOpened, ObserverStarted]
  }

  function ApplyEvents(c: Plan, env: Env, t: Timing): seq<RunEvent> {
    if CallsApply(c, env, t) then [Apply(Request(c, t), env.applied)] else []
  }

  function BeginEvents(c: Plan, env: Env): seq<RunEvent> {
    StartEvents(env)
    + if c.isFault && Started(env) && BoundaryTimed(env.timing.value) then ApplyEvents(c, env, env.timing.value) else []
  }

  /** Each artifact is written only after everything before it went well. */
  function PublishEvents(env: Env, deadmanSeconds: nat): seq<RunEvent> {
    if !env.stopped then [ObserverStopped]
    else if !env.closed || !env.manifestWritten then [ObserverStopped, RawClosed]
    else if !env.metadataWritten then [ObserverStopped, RawClosed, ManifestWritten]
    else if !env.checksummed then [ObserverStopped, RawClosed, ManifestWritten, MetadataWritten(deadmanSeconds)]
    else [ObserverStopped, RawClosed, ManifestWritten, MetadataWritten(deadmanSeconds), ChecksumsWritten]
  }

  /** What follows the end snapshot: a fault is removed first. */
  ghost function ConcludeEvents(c: Plan, env: Env, t: Timing, endSlot: U64, request: PartitionRequest): seq<RunEvent> {
    if !c.isFault then PublishEvents(env, 0)
    else if !Recovers(c, env, t, endSlot) then [Revert(request, env.reverted)]
    else [Revert(request, env.reverted)] + PublishEvents(env, request.ttl / SECOND)
  }

  ghost function FinishEvents(c: Plan, env: Env, t: Timing, startSlot: nat, request: PartitionRequest): seq<RunEvent> {
    if !Measures(c, env, t, startSlot) then [] else
    [EndSnapshot(EndSlot(c, t, startSlot))] + ConcludeEvents(c, env, t, EndSlot(c, t, startSlot), request)
  }

  /** The deferred calls, last registered first: what is still injected, running or open. */
  function DeferredEvents(m: Monitor, reverted: bool): seq<RunEvent> {
    (if m.backend.Injected? then [Revert(m.backend.request, reverted)] else [])
    + (if m.observer.InUse? then [ObserverStopped] else [])
    + (if m.raw.InUse? then [RawClosed] else [])
  }

  /** The run without its deferred calls. */
  ghost function BodyEvents(c: Plan, env: Env): seq<RunEvent>
    requires c.targets != []
  {
    if !Begins(c, env) then BeginEvents(c, env) else
    var t := env.timing.value;
    BeginEvents(c, env) + FinishEvents(c, env, t, StartSlot(c, env), if c.isFault then Request(c, t) else NO_REQUEST)
  }

  ghost function RunEvents(c: Plan, env: Env): seq<RunEvent>
    requires c.targets != []
  {
    var body := BodyEvents(c, env);
    body + DeferredEvents(MonitorOf(body), env.cleanupReverted)
  }

  const NO_REQUEST := PartitionRequest([], [], 0)

  ghost predicate IsRunWindow(c: Plan, env: Env, w: RunWindow)
    requires c.targets != [] && RunSucceeds(c, env)
  {
    && w.startSlot == StartSlot(c, env) && w.endSlot == EndSlot(c, env.timing.value, w.startSlot)
    && w.removalSlot == (if c.isFault then RemovalSlot(env.afterRemoval.beacon, c.targets, w.endSlot) else w.endSlot)
    && (w.recoveryComplete <==> c.isFault ==> env.recovery.Satisfied?)
  }

  // ---------- Where the snapshots come from ----------

  /** The recorder's events during a run, and the steps in which the run's waits and reads took their data. */
  datatype History = History(
    events: seq<Event>, specs: nat, boundary: nat, applied: nat, start: nat, end: nat, removed: nat, recovered: nat,
    stopped: nat)

  predicate StepsInOrder(h: History) {
    h.specs <= h.boundary <= h.applied <= h.start <= h.end <= h.removed <= h.recovered <= h.stopped <= |h.events|
  }

  /** The constants are those of the first target by name. */
  function TimingOf(d: Dataset, targets: seq<Name>): Timing
    requires targets != []
  {
    var names := SortNames(targets);
    assert |multiset(names)| == |names| && |multiset(targets)| == |targets|;
    if names[0] in d.specs then Timing(d.specs[names[0]].slotsPerEpoch, d.specs[names[0]].secondsPerSlot)
    else Timing(0, 0)
  }

  /** The remainder that the boundary's slot leaves: fault runs wait for the last slot of an epoch. */
  function BoundaryRemainder(c: Plan, t: Timing): int {
    if c.isFault then t.slotsPerEpoch - 1 else 0
  }

  ghost predicate BeginRecorded(c: Plan, env: Env, h: History)
    requires c.targets != [] && StepsInOrder(h)
  {
    env.timing.Some? ==>
      var t := env.timing.value;
      && t == TimingOf(Returned(h.events, h.specs), c.targets)
      && Answers(h.events, h.specs, c.targets, SpecsAndHeads, Returned(h.events, h.specs))
      && (env.boundary.Some? ==>
            && Answers(h.events, h.boundary, c.targets, CommonAt(t.slotsPerEpoch, BoundaryRemainder(c, t)),
                       env.boundary.value)
            && (c.isFault && env.applied ==> Reads(h.events, h.applied, env.afterApply))
            && (c.isFault && env.applied && env.atStart.Some? ==>
                  Answers(h.events, h.start, c.targets, ExactSlot(BoundarySlot(c, env) + 1), env.atStart.value)))
  }

  function EndGoal(c: Plan, env: Env): Goal
    requires c.targets != [] && env.timing.Some?
  {
    ExactSlot(EndSlot(c, env.timing.value, StartSlot(c, env)))
  }

  function RecoveryGoal(c: Plan, ending: Dataset, endSlot: U64, censorSlot: U64): Goal {
    RecoveryOrCensor(AtSlotMap(ending.beacon, c.targets, endSlot), censorSlot)
  }

  ghost predicate EndRecorded(c: Plan, env: Env, h: History)
    requires c.targets != [] && StepsInOrder(h)
  {
    Begins(c, env) && env.atEnd.Some? ==>
      Answers(h.events, h.end, c.targets, EndGoal(c, env), env.atEnd.value)
  }

  /** The slot after which the wait for the recovery gives up. */
  ghost function CensorSlot(c: Plan, env: Env, endSlot: U64): nat
    requires env.timing.Some?
  {
    RemovalSlot(env.afterRemoval.beacon, c.targets, endSlot) + c.postFaultEpochs * env.timing.value.slotsPerEpoch
  }

  /** A fault run has come to remove the fault after its end snapshot. */
  ghost predicate Removing(c: Plan, env: Env)
    requires c.targets != []
  {
    && c.isFault && Begins(c, env) && Measures(c, env, env.timing.value, StartSlot(c, env)) && env.reverted
  }

  ghost predicate RemovalRecorded(c: Plan, env: Env, h: History)
    requires c.targets != [] && StepsInOrder(h)
  {
    Removing(c, env) ==>
      var endSlot := EndSlot(c, env.timing.value, StartSlot(c, env));
      && Reads(h.events, h.removed, env.afterRemoval)
      && (Recovers(c, env, env.timing.value, endSlot) && env.recovery.Satisfied? ==>
            Answers(h.events, h.recovered, c.targets,
                    RecoveryGoal(c, env.atEnd.value, endSlot, CensorSlot(c, env, endSlot)), env.recovery.tested))
  }

  /** The answers of the environment are what the recorder's protocol gave to the run's waits and reads. */
  ghost predicate Recorded(c: Plan, env: Env, h: History)
    requires c.targets != []
  {
    && StepsInOrder(h) && AllFit(h.events, c.targets)
    && BeginRecorded(c, env, h) && EndRecorded(c, env, h) && RemovalRecorded(c, env, h)
    && (RunSucceeds(c, env) ==> Reads(h.events, h.stopped, env.final))
  }

  /** There is an interleaving of the recorder's goroutines in which the waits and reads give these answers. */
  ghost predicate Honest(c: Plan, env: Env) {
    c.targets != [] && Distinct(c.targets) && exists h :: Recorded(c, env, h)
  }

  lemma {:induction false} TimingPositive(d: Dataset, targets: seq<Name>)
    requires targets != [] && Distinct(targets) && DataFit(d, targets) && |d.specs| == |targets|
    ensures TimingOf(d, targets).slotsPerEpoch > 0 && TimingOf(d, targets).secondsPerSlot > 0
  {
    var names := SortNames(targets);
    PermutationElements(names, targets);
    assert d.specs.Keys <= Elements(targets) && |d.specs.Keys| == |d.specs|;
    DistinctSize(targets);
    assert Elements(targets) == d.specs.Keys + (Elements(targets) - d.specs.Keys);
    assert names[0] in Elements(targets);
  }

  /** What the first two waits of a run have established. */
  ghost predicate BoundaryKnown(c: Plan, env: Env)
    requires c.targets != []
  {
    env.timing.Some? ==>
      var t := env.timing.value;
      && t.slotsPerEpoch > 0 && t.secondsPerSlot > 0
      && (env.boundary.Some? ==>
            && CommonSlot(env.boundary.value.beacon, c.targets).Some?
            && BoundarySlot(c, env) % t.slotsPerEpoch == BoundaryRemainder(c, t))
  }

  lemma {:induction false} HonestBoundary(c: Plan, env: Env)
    requires Honest(c, env)
    ensures BoundaryKnown(c, env)
  {
    var h :| Recorded(c, env, h);
    if env.timing.Some? {
      var t := env.timing.value;
      AnswerMeets(h.events, h.specs, c.targets, SpecsAndHeads, Returned(h.events, h.specs));
      TimingPositive(Returned(h.events, h.specs), c.targets);
      if env.boundary.Some? {
        AnswerMeets(h.events, h.boundary, c.targets, CommonAt(t.slotsPerEpoch, BoundaryRemainder(c, t)),
                    env.boundary.value);
      }
    }
  }

  /** Every target was seen in the first slot of the window. */
  lemma {:induction false} StartObserved(c: Plan, env: Env, h: History)
    requires c.targets != [] && Distinct(c.targets) && Begins(c, env)
    requires StepsInOrder(h) && AllFit(h.events, c.targets) && BeginRecorded(c, env, h)
    ensures SlotComplete(InitialData(c, env).beacon, c.targets, StartSlot(c, env))
  {
    if c.isFault {
      AnswerMeets(h.events, h.start, c.targets, ExactSlot(BoundarySlot(c, env) + 1), env.atStart.value);
    } else {
      var t := env.timing.value;
      AnswerMeets(h.events, h.boundary, c.targets, CommonAt(t.slotsPerEpoch, BoundaryRemainder(c, t)),
                  env.boundary.value);
      CommonSlotIsComplete(env.boundary.value.beacon, c.targets);
    }
  }

  /** The data in which the window starts. */
  ghost function InitialData(c: Plan, env: Env): Dataset
    requires c.targets != [] && Begins(c, env)
  {
    if c.isFault then env.atStart.value else env.boundary.value
  }

  /** Every target was seen in the last slot of the window. */
  lemma {:induction false} EndObserved(c: Plan, env: Env, h: History)
    requires c.targets != [] && Begins(c, env) && env.atEnd.Some?
    requires StepsInOrder(h) && AllFit(h.events, c.targets) && EndRecorded(c, env, h)
    ensures SlotComplete(env.atEnd.value.beacon, c.targets, EndSlot(c, env.timing.value, StartSlot(c, env)))
  {
    AnswerMeets(h.events, h.end, c.targets, EndGoal(c, env), env.atEnd.value);
  }

  /** The data only grow from the start of the window to its end and to the end of the run. */
  lemma {:induction false} DataGrow(c: Plan, env: Env, h: History)
    requires c.targets != [] && RunSucceeds(c, env)
    requires StepsInOrder(h) && BeginRecorded(c, env, h) && EndRecorded(c, env, h)
    requires Reads(h.events, h.stopped, env.final)
    ensures Extends(InitialData(c, env), env.atEnd.value) && Extends(env.atEnd.value, env.final)
  {
    var t := env.timing.value;
    if c.isFault {
      AnswersInOrder(h.events, h.start, h.end, c.targets, ExactSlot(BoundarySlot(c, env) + 1), EndGoal(c, env),
                     env.atStart.value, env.atEnd.value);
    } else {
      AnswersInOrder(h.events, h.boundary, h.end, c.targets, CommonAt(t.slotsPerEpoch, BoundaryRemainder(c, t)),
                     EndGoal(c, env), env.boundary.value, env.atEnd.value);
    }
    AnswerThenRead(h.events, h.end, c.targets, EndGoal(c, env), env.atEnd.value, h.stopped, env.final);
  }

  /** Nothing is lost around the removal either. */
  lemma {:induction false} RemovalDataGrow(c: Plan, env: Env, h: History)
    requires c.targets != [] && c.isFault && RunSucceeds(c, env)
    requires StepsInOrder(h) && EndRecorded(c, env, h) && RemovalRecorded(c, env, h)
    requires Reads(h.events, h.stopped, env.final)
    ensures Extends(env.atEnd.value, env.afterRemoval)
    ensures env.recovery.Satisfied? ==>
              Extends(env.afterRemoval, env.recovery.tested) && Extends(env.recovery.tested, env.final)
  {
    AnswerThenRead(h.events, h.end, c.targets, EndGoal(c, env), env.atEnd.value, h.removed, env.afterRemoval);
    if env.recovery.Satisfied? {
      var endSlot := EndSlot(c, env.timing.value, StartSlot(c, env));
      var goal := RecoveryGoal(c, env.atEnd.value, endSlot, CensorSlot(c, env, endSlot));
      ReadThenAnswer(h.events, h.removed, env.afterRemoval, h.recovered, c.targets, goal, env.recovery.tested);
      AnswerThenRead(h.events, h.recovered, c.targets, goal, env.recovery.tested, h.stopped, env.final);
    }
  }

  /** The wait after the removal returned data that end it. */
  lemma {:induction false} RecoveryObserved(c: Plan, env: Env, h: History)
    requires c.targets != [] && c.isFault && RunSucceeds(c, env) && env.recovery.Satisfied?
    requires StepsInOrder(h) && AllFit(h.events, c.targets) && RemovalRecorded(c, env, h)
    ensures var endSlot := EndSlot(c, env.timing.value, StartSlot(c, env));
            && CensorSlot(c, env, endSlot) <= MAX_UINT64
            && WaitOver(env.recovery.tested.beacon, c.targets,
                        AtSlotMap(env.atEnd.value.beacon, c.targets, endSlot), CensorSlot(c, env, endSlot))
  {
    var endSlot := EndSlot(c, env.timing.value, StartSlot(c, env));
    var goal := RecoveryGoal(c, env.atEnd.value, endSlot, CensorSlot(c, env, endSlot));
    AnswerMeets(h.events, h.recovered, c.targets, goal, env.recovery.tested);
  }

  // ---------- The run as it is written ----------

  class Session {
    var trace: seq<RunEvent>
    var faultApplied: bool
    var observerRunning: bool
    var rawOpen: bool
    var partition: PartitionRequest

    constructor ()
      ensures trace == [] && !faultApplied && !observerRunning && !rawOpen && partition == NO_REQUEST
    {
      trace, faultApplied, observerRunning, rawOpen := [], false, false, false;
      partition := NO_REQUEST;
    }

    ghost predicate Consistent()
      reads this
    {
      var m := MonitorOf(trace);
      && m.legal
      && (m.raw.InUse? <==> rawOpen) && (m.observer.InUse? <==> observerRunning)
      && (m.backend.Injected? <==> faultApplied)
      && (faultApplied ==> m.backend.request == partition && m.backend.attempts <= 2)
      && (faultApplied ==> observerRunning || m.backend.attempts >= 1)
      && (m.published ==> !faultApplied)
    }

    method Emit(e: RunEvent)
      modifies this`trace
      ensures trace == old(trace) + [e] && MonitorOf(trace) == Delta(MonitorOf(old(trace)), e)
    {
      trace := trace + [e];
    }

    method StopObserver(env: Env) returns (ok: bool)
      requires Consistent() && (faultApplied ==> MonitorOf(trace).backend.attempts >= 1)
      modifies this
      ensures Consistent() && !observerRunning && rawOpen == old(rawOpen)
      ensures faultApplied == old(faultApplied) && partition == old(partition)
      ensures MonitorOf(trace) ==
                if old(observerRunning) then Delta(old(MonitorOf(trace)), ObserverStopped) else old(MonitorOf(trace))
      ensures trace == old(trace) + if old(observerRunning) then [ObserverStopped] else []
      ensures ok <==> old(observerRunning) ==> env.stopped
    {
      ok := true;
      if observerRunning {
        observerRunning := false;
        Emit(ObserverStopped);
        ok := env.stopped;
      }
    }

    method CloseRaw(env: Env) returns (ok: bool)
      requires Consistent() && !observerRunning
      modifies this
      ensures Consistent() && !observerRunning && !rawOpen
      ensures faultApplied == old(faultApplied) && partition == old(partition)
      ensures MonitorOf(trace) ==
                if old(rawOpen) then Delta(old(MonitorOf(trace)), RawClosed) else old(MonitorOf(trace))
      ensures trace == old(trace) + if old(rawOpen) then [RawClosed] else []
      ensures ok <==> old(rawOpen) ==> env.closed
    {
      ok := true;
      if rawOpen {
        rawOpen := false;
        Emit(RawClosed);
        ok := env.closed;
      }
    }

    ghost predicate Measuring()
      reads this
    {
      Consistent() && observerRunning && rawOpen && !MonitorOf(trace).published
    }

    ghost predicate Quiet()
      reads this
    {
      Measuring() && MonitorOf(trace).backend.Untouched? && !MonitorOf(trace).ended
    }

    /** The deferred calls may follow: at most one revert has been tried, and nothing is published. */
    ghost predicate Recoverable()
      reads this
    {
      && Consistent()
      && (faultApplied ==> observerRunning && MonitorOf(trace).backend.attempts <= 1 && !MonitorOf(trace).published)
    }

    method Start(env: Env) returns (timing: Option<Timing>)
      requires trace == [] && !faultApplied && !observerRunning && !rawOpen
      modifies this
      ensures Recoverable() && MonitorOf(trace).backend.Untouched? && !faultApplied && partition == old(partition)
      ensures timing == if Started(env) then env.timing else None
      ensures trace == StartEvents(env)
      ensures timing.Some? ==> Quiet()
    {
      if !env.prepared || !env.rawCreated {
        return None;
      }
      Emit(RawOpened);
      rawOpen := true;
      if !env.recordersReady {
        return None;
      }
      Emit(ObserverStarted);
      observerRunning := true;
      if env.timing.None? {
        var _ := StopObserver(env);
        return None;
      }
      return env.timing;
    }

    /** The fault branch: wait for the last slot of an epoch, inject, and observe the boundary. */
    method Inject(c: Plan, env: Env, t: Timing) returns (start: Option<U64>)
      requires Quiet() && !faultApplied && c.targets != []
      requires env.boundary.Some? ==> CommonSlot(env.boundary.value.beacon, c.targets).Some?
      modifies this
      ensures Recoverable() && Measuring() && !MonitorOf(trace).ended
      ensures start.Some? <==> Injects(c, env, t)
      ensures start.Some? ==> start.value == BoundarySlot(c, env) + 1
      ensures trace == old(trace) + ApplyEvents(c, env, t)
      ensures start.Some? ==> partition == Request(c, t) && MonitorOf(trace).backend == Injected(partition, 0)
    {
      if env.boundary.None? {
        return None;
      }
      var deadmanSlots := Multiply(Wrap(c.durationEpochs + 2), t.slotsPerEpoch);
      if deadmanSlots.None? {
        return None;
      }
      var deadmanTTL := RuntimeDuration(t.secondsPerSlot, deadmanSlots.value);
      if deadmanTTL.Err? {
        return None;
      }
      partition := PartitionRequest(c.groupA, c.groupB, deadmanTTL.value);
      Emit(Apply(partition, env.applied));
      if !env.applied {
        return None;
      }
      faultApplied := true;
      var preBoundary := CommonLatestSlot(env.boundary.value.beacon, c.targets);
      var late := LatestSlotExceeds(env.afterApply.beacon, c.targets, preBoundary.value);
      if late || preBoundary.value == MAX_UINT64 || env.atStart.None? {
        return None;
      }
      return Some(preBoundary.value + 1);
    }

    /** The window: its end slot, its timeout, and the end snapshot. */
    method Measure(c: Plan, env: Env, t: Timing, startSlot: U64) returns (end: Option<U64>)
      requires Measuring() && !MonitorOf(trace).ended && Recoverable()
      requires MonitorOf(trace).backend.Untouched? || MonitorOf(trace).backend.Injected?
      modifies this`trace
      ensures Measuring() && Recoverable() && MonitorOf(trace).backend == old(MonitorOf(trace).backend)
      ensures end.Some? <==> Measures(c, env, t, startSlot)
      ensures end.Some? ==> end.value == EndSlot(c, t, startSlot) && MonitorOf(trace).ended
      ensures trace == old(trace) + if end.Some? then [EndSnapshot(end.value)] else []
    {
      var durationSlots := Multiply(c.durationEpochs, t.slotsPerEpoch);
      if durationSlots.None? || MAX_UINT64 - startSlot < durationSlots.value {
        return None;
      }
      var endSlot := startSlot + durationSlots.value;
      var windowTimeout := RuntimeDuration(t.secondsPerSlot, Wrap(durationSlots.value + t.slotsPerEpoch));
      if windowTimeout.Err? || env.atEnd.None? {
        return None;
      }
      Emit(EndSnapshot(endSlot));
      return Some(endSlot);
    }

    /** Removal of the fault and the recovery window. */
    method Remove(c: Plan, env: Env, t: Timing, endSlot: U64) returns (removal: Option<(U64, bool)>)
      requires Measuring() && MonitorOf(trace).ended && MonitorOf(trace).backend == Injected(partition, 0)
      modifies this
      ensures Measuring() && Recoverable() && MonitorOf(trace).ended && partition == old(partition)
      ensures removal.Some? <==> Recovers(c, env, t, endSlot)
      ensures removal.Some? ==>
                removal.value == (RemovalSlot(env.afterRemoval.beacon, c.targets, endSlot), env.recovery.Satisfied?)
                && !faultApplied
      ensures trace == old(trace) + [Revert(partition, env.reverted)]
    {
      Emit(Revert(partition, env.reverted));
      if !env.reverted {
        return None;
      }
      faultApplied := false;
      var removalSlot := FindRemovalSlot(env.afterRemoval.beacon, c.targets, endSlot);
      var recoverySlots := Multiply(c.postFaultEpochs, t.slotsPerEpoch);
      if recoverySlots.None? || MAX_UINT64 - removalSlot < recoverySlots.value {
        return None;
      }
      var recoveryTimeout := RuntimeDuration(t.secondsPerSlot, Wrap(recoverySlots.value + t.slotsPerEpoch));
      if recoveryTimeout.Err? || env.recovery.Failed? {
        return None;
      }
      return Some((removalSlot, env.recovery.Satisfied?));
    }

    /** The artifacts that are written once nothing is running any more. */
    method Publish(env: Env, deadmanSeconds: nat) returns (ok: bool)
      requires Measuring() && MonitorOf(trace).ended && !faultApplied
      modifies this
      ensures Recoverable() && !faultApplied && partition == old(partition)
      ensures ok <==> Publishes(env)
      ensures trace == old(trace) + PublishEvents(env, deadmanSeconds)
    {
      ok := StopObserver(env);
      if !ok {
        return;
      }
      ok := CloseRaw(env);
      if !ok {
        return;
      }
      if !env.manifestWritten {
        return false;
      }
      Emit(ManifestWritten);
      if !env.metadataWritten {
        return false;
      }
      Emit(MetadataWritten(deadmanSeconds));
      if !env.checksummed {
        return false;
      }
      Emit(ChecksumsWritten);
      ok := true;
    }

    /** Everything up to the first slot of the window. */
    method Begin(c: Plan, env: Env) returns (begun: Option<(Timing, U64)>)
      requires trace == [] && !faultApplied && !observerRunning && !rawOpen && partition == NO_REQUEST
      requires c.targets != [] && BoundaryKnown(c, env)
      modifies this
      ensures Recoverable() && trace == BeginEvents(c, env)
      ensures begun.Some? <==> Begins(c, env)
      ensures begun.Some? ==> Measuring() && !MonitorOf(trace).ended
      ensures begun.Some? ==> env.timing == Some(begun.value.0) && begun.value.1 == StartSlot(c, env)
      ensures begun.Some? ==>
                if c.isFault then
                  partition == Request(c, begun.value.0) && MonitorOf(trace).backend == Injected(partition, 0)
                else partition == NO_REQUEST && MonitorOf(trace).backend.Untouched?
    {
      var timing := Start(env);
      if timing.None? {
        return None;
      }
      var t := timing.value;
      var boundaryTimeout := RuntimeDuration(t.secondsPerSlot, Wrap(2 * t.slotsPerEpoch));
      if boundaryTimeout.Err? {
        return None;
      }
      if c.isFault {
        var start := Inject(c, env, t);
        begun := if start.None? then None else Some((t, start.value));
      } else if env.boundary.None? {
        begun := None;
      } else {
        var start := CommonLatestSlot(env.boundary.value.beacon, c.targets);
        begun := Some((t, start.value));
      }
    }

    /** Everything after the end snapshot. */
    method Conclude(c: Plan, env: Env, t: Timing, endSlot: U64) returns (removal: Option<(U64, bool)>)
      requires Measuring() && Recoverable() && MonitorOf(trace).ended
      requires MonitorOf(trace).backend == if c.isFault then Injected(partition, 0) else Untouched
      modifies this
      ensures Recoverable() && trace == old(trace) + ConcludeEvents(c, env, t, endSlot, old(partition))
      ensures removal.Some? <==> Concludes(c, env, t, endSlot)
      ensures removal.Some? ==>
                removal.value ==
                  if c.isFault then (RemovalSlot(env.afterRemoval.beacon, c.targets, endSlot), env.recovery.Satisfied?)
                  else (endSlot, true)
    {
      if !c.isFault {
        var published := Publish(env, 0);
        return if published then Some((endSlot, true)) else None;
      }
      removal := Remove(c, env, t, endSlot);
      if removal.Some? {
        var published := Publish(env, partition.ttl / SECOND);
        removal := if published then removal else None;
      }
    }

    /** Everything after the first slot of the window. */
    method Finish(c: Plan, env: Env, t: Timing, startSlot: U64) returns (window: Option<RunWindow>)
      requires Measuring() && Recoverable() && !MonitorOf(trace).ended
      requires MonitorOf(trace).backend == if c.isFault then Injected(partition, 0) else Untouched
      modifies this
      ensures Recoverable() && trace == old(trace) + FinishEvents(c, env, t, startSlot, old(partition))
      ensures window.Some? <==> Finishes(c, env, t, startSlot)
      ensures window.Some? ==>
                && window.value.startSlot == startSlot
                && window.value.endSlot == EndSlot(c, t, startSlot)
                && window.value.removalSlot ==
                     (if c.isFault then RemovalSlot(env.afterRemoval.beacon, c.targets, window.value.endSlot)
                      else window.value.endSlot)
                && (window.value.recoveryComplete <==> c.isFault ==> env.recovery.Satisfied?)
    {
      var end := Measure(c, env, t, startSlot);
      if end.None? {
        return None;
      }
      var removal := Conclude(c, env, t, end.value);
      return if removal.None? then None else Some(RunWindow(startSlot, end.value, removal.value.0, removal.value.1));
    }

    /** The deferred calls, last registered first. */
    method CleanUp(env: Env)
      requires Recoverable()
      modifies this
      ensures Consistent() && !observerRunning && !rawOpen
      ensures trace == old(trace) + DeferredEvents(old(MonitorOf(trace)), env.cleanupReverted)
      ensures faultApplied ==> MonitorOf(trace).backend.attempts >= 1
    {
      if faultApplied {
        Emit(Revert(partition, env.cleanupReverted));
        faultApplied := !env.cleanupReverted;
      }
      var _ := StopObserver(env);
      var _ := CloseRaw(env);
    }
  }

  /** A run with every answer of its environment chosen freely. It returns a window exactly when everything
      that has to go well does, its events are exactly these, and they are in order. */
  method Run(c: Plan, env: Env) returns (trace: seq<RunEvent>, window: Option<RunWindow>)
    requires Honest(c, env)
    ensures window.Some? <==> RunSucceeds(c, env)
    ensures window.Some? ==> IsRunWindow(c, env, window.value)
    ensures trace == RunEvents(c, env) && Legal(trace)
    // Every fault that was injected has been removed, or at least its removal was tried.
    ensures forall i, r :: AppliedAt(trace, i, r) ==> RevertedAfter(trace, i, r)
    // Whatever was opened or started has been closed or stopped.
    ensures !MonitorOf(trace).raw.InUse? && !MonitorOf(trace).observer.InUse?
  {
    HonestBoundary(c, env);
    var session := new Session();
    var begun := session.Begin(c, env);
    window := None;
    if begun.Some? {
      window := session.Finish(c, env, begun.value.0, begun.value.1);
    }
    assert session.trace == BodyEvents(c, env);
    session.CleanUp(env);
    trace := session.trace;
    AppliedAreReverted(trace);
  }

  ghost predicate RevertedAfter(trace: seq<RunEvent>, i: nat, r: PartitionRequest) {
    exists j :: i < j < |trace| && trace[j].Revert? && trace[j].request == r
  }

  lemma {:induction false} AppliedAreReverted(trace: seq<RunEvent>)
    requires Legal(trace)
    requires MonitorOf(trace).backend.Injected? ==> MonitorOf(trace).backend.attempts >= 1
    ensures forall i, r :: AppliedAt(trace, i, r) ==> RevertedAfter(trace, i, r)
  {
    forall i, r | AppliedAt(trace, i, r) ensures RevertedAfter(trace, i, r) {
      AppliedIsReverted(trace, i, r);
    }
  }

  lemma {:induction false} AppliedIsReverted(trace: seq<RunEvent>, i: nat, r: PartitionRequest)
    requires Legal(trace) && AppliedAt(trace, i, r)
    requires MonitorOf(trace).backend.Injected? ==> MonitorOf(trace).backend.attempts >= 1
    ensures RevertedAfter(trace, i, r)
  {
    BackendMeaning(trace);
    assert trace[i] in trace;
    var b := MonitorOf(trace).backend;
    var e :| e in trace && e.Revert? && e.request == b.request;
    var j :| 0 <= j < |trace| && trace[j] == e;
    RevertsFollowApply(trace, j);
    OnlyApply(trace, i, r);
  }

  // ---------- What a run means ----------

  lemma {:induction false} NextBoundary(slot: U64, slotsPerEpoch: U64)
    requires slotsPerEpoch > 0
    ensures slot % slotsPerEpoch == slotsPerEpoch - 1 ==> (slot + 1) % slotsPerEpoch == 0
  {
    var q := slot / slotsPerEpoch;
    assert slot == q * slotsPerEpoch + slot % slotsPerEpoch;
    if slot % slotsPerEpoch == slotsPerEpoch - 1 {
      assert slot + 1 == (q + 1) * slotsPerEpoch;
      Multiple(q + 1, slotsPerEpoch);
    }
  }

  lemma {:induction false} Multiple(k: nat, m: nat)
    requires m > 0
    ensures (k * m) % m == 0
  {
    var n := k * m;
    var q, r := n / m, n % m;
    assert n == q * m + r;
    assert (k - q) * m == r;
    if k - q >= 1 {
      ScaledOrder(1, k - q, m);
    } else if k - q <= -1 {
      ScaledOrder(k - q, -1, m);
    }
  }

  /** The window begins at an epoch boundary: the one observed, or the one after the observed last slot. */
  lemma {:induction false} BeginsAtEpoch(c: Plan, env: Env)
    requires Honest(c, env) && Begins(c, env)
    ensures env.timing.value.slotsPerEpoch > 0
    ensures StartSlot(c, env) % env.timing.value.slotsPerEpoch == 0
  {
    HonestBoundary(c, env);
    NextBoundary(BoundarySlot(c, env), env.timing.value.slotsPerEpoch);
  }

  /** What a successful fault run has done, in order, with the stored seconds that the metadata check expects. */
  lemma {:induction false} SuccessfulFaultRun(c: Plan, env: Env, w: RunWindow)
    requires c.targets != [] && c.isFault && RunSucceeds(c, env) && IsRunWindow(c, env, w)
    ensures var t := env.timing.value;
            var r := Request(c, t);
            var stored := ExpectedDeadmanSeconds(c.durationEpochs, t.slotsPerEpoch, t.secondsPerSlot);
            && stored.Some?
            && RunEvents(c, env) ==
                 UpToRevert(r, w.endSlot)
                 + [ObserverStopped, RawClosed, ManifestWritten, MetadataWritten(stored.value), ChecksumsWritten]
  {
    var t := env.timing.value;
    var r := Request(c, t);
    StoredDeadmanIsExpected(c.durationEpochs, t.slotsPerEpoch, t.secondsPerSlot);
    AfterRevert(r, w.endSlot);
    AfterPublishing(UpToRevert(r, w.endSlot), r.ttl / SECOND);
    assert BodyEvents(c, env) == UpToRevert(r, w.endSlot) + PublishEvents(env, r.ttl / SECOND);
  }

  /** What a successful control run has done, in order; the stored seconds are zero. */
  lemma {:induction false} SuccessfulControlRun(c: Plan, env: Env, w: RunWindow)
    requires c.targets != [] && !c.isFault && RunSucceeds(c, env) && IsRunWindow(c, env, w)
    ensures RunEvents(c, env) ==
              [RawOpened, ObserverStarted, EndSnapshot(w.endSlot), ObserverStopped, RawClosed, ManifestWritten,
               MetadataWritten(0), ChecksumsWritten]
  {
    var measured := [RawOpened, ObserverStarted, EndSnapshot(w.endSlot)];
    AfterMeasuring(w.endSlot);
    AfterPublishing(measured, 0);
    assert BodyEvents(c, env) == measured + PublishEvents(env, 0);
  }

  lemma {:induction false} AfterMeasuring(endSlot: U64)
    ensures MonitorOf([RawOpened, ObserverStarted, EndSnapshot(endSlot)]) ==
              Monitor(Untouched, InUse, InUse, true, false, true)
  {
    Follows([], RawOpened);
    Follows([RawOpened], ObserverStarted);
    Follows([RawOpened, ObserverStarted], EndSnapshot(endSlot));
    assert [] + [RawOpened] == [RawOpened] && [RawOpened] + [ObserverStarted] == [RawOpened, ObserverStarted];
    assert [RawOpened, ObserverStarted] + [EndSnapshot(endSlot)] ==
             [RawOpened, ObserverStarted, EndSnapshot(endSlot)];
  }

  /** Where the window lies, seen from the slot that all targets had reached. */
  ghost predicate WindowFollows(c: Plan, env: Env, w: RunWindow)
    requires c.targets != []
  {
    && env.timing.Some? && env.boundary.Some?
    && env.timing.value.slotsPerEpoch > 0 && env.timing.value.secondsPerSlot > 0
    && w.startSlot % env.timing.value.slotsPerEpoch == 0
    && w.endSlot == w.startSlot + c.durationEpochs * env.timing.value.slotsPerEpoch
    && if c.isFault then
         && w.startSlot > 0 && CommonSlot(env.boundary.value.beacon, c.targets) == Some(w.startSlot - 1)
         && IsRemovalSlot(env.afterRemoval.beacon, c.targets, w.endSlot, w.removalSlot)
         && (w.recoveryComplete <==> env.recovery.Satisfied?)
       else
         && CommonSlot(env.boundary.value.beacon, c.targets) == Some(w.startSlot)
         && w.removalSlot == w.endSlot && w.recoveryComplete
  }

  lemma {:induction false} WindowOfRun(c: Plan, env: Env, w: RunWindow)
    requires Honest(c, env) && RunSucceeds(c, env) && IsRunWindow(c, env, w)
    ensures WindowFollows(c, env, w)
  {
    HonestBoundary(c, env);
    BeginsAtEpoch(c, env);
    WindowNumbers(c, env, w);
  }

  lemma {:induction false} WindowNumbers(c: Plan, env: Env, w: RunWindow)
    requires c.targets != [] && BoundaryKnown(c, env) && RunSucceeds(c, env) && IsRunWindow(c, env, w)
    requires StartSlot(c, env) % env.timing.value.slotsPerEpoch == 0
    ensures WindowFollows(c, env, w)
  {
  }

  // ---------- When a run of three and four epochs succeeds ----------

  /** Nothing that the run asks for fails. */
  predicate NothingFails(c: Plan, env: Env) {
    && env.prepared && env.rawCreated && env.recordersReady && env.timing.Some? && env.boundary.Some?
    && env.atEnd.Some? && env.stopped && env.closed
    && env.manifestWritten && env.metadataWritten && env.checksummed
    && (c.isFault ==> env.applied && env.atStart.Some? && env.reverted && !env.recovery.Failed?)
  }

  /** When Apply has returned, the latest observation of each target is not past the slot. */
  ghost predicate InTime(c: Plan, env: Env, slot: U64) {
    forall t :: t in c.targets && t in Latest(env.afterApply.beacon) ==>
      Latest(env.afterApply.beacon)[t].currentSlot <= slot
  }

  /** The window, and in a fault run the injection and the recovery, stay within the numbers of the machine. */
  ghost predicate NumbersFit(c: Plan, env: Env, t: Timing, slot: U64) {
    if c.isFault then
      && 5 * t.slotsPerEpoch * t.secondsPerSlot <= MAX_SECONDS && slot + 1 + 3 * t.slotsPerEpoch <= MAX_UINT64
      && RemovalSlot(env.afterRemoval.beacon, c.targets, slot + 1 + 3 * t.slotsPerEpoch) + 4 * t.slotsPerEpoch
           <= MAX_UINT64
    else 4 * t.slotsPerEpoch * t.secondsPerSlot <= MAX_SECONDS && slot + 3 * t.slotsPerEpoch <= MAX_UINT64
  }

  lemma {:induction false} FaultSuccess(c: Plan, env: Env)
    requires c.targets != [] && c.isFault && c.durationEpochs == 3 && c.postFaultEpochs == 4
    requires env.timing.Some? && env.boundary.Some? && CommonSlot(env.boundary.value.beacon, c.targets).Some?
    requires env.timing.value.slotsPerEpoch > 0 && env.timing.value.secondsPerSlot > 0
    ensures RunSucceeds(c, env) <==>
              && NothingFails(c, env) && InTime(c, env, BoundarySlot(c, env))
              && NumbersFit(c, env, env.timing.value, BoundarySlot(c, env))
  {
    var t := env.timing.value;
    DurationsAccepted(t.slotsPerEpoch, t.secondsPerSlot);
    if DeadmanTTL(3, t.slotsPerEpoch, t.secondsPerSlot).Ok? {
      DeadmanBoundsTheRest(t.slotsPerEpoch, t.secondsPerSlot);
    }
    assert InTime(c, env, BoundarySlot(c, env)) <==> !Exceeds(env.afterApply.beacon, c.targets, BoundarySlot(c, env));
  }

  lemma {:induction false} ControlSuccess(c: Plan, env: Env)
    requires c.targets != [] && !c.isFault && c.durationEpochs == 3
    requires env.timing.Some? && env.boundary.Some? && CommonSlot(env.boundary.value.beacon, c.targets).Some?
    requires env.timing.value.slotsPerEpoch > 0 && env.timing.value.secondsPerSlot > 0
    ensures RunSucceeds(c, env) <==>
              NothingFails(c, env) && NumbersFit(c, env, env.timing.value, BoundarySlot(c, env))
  {
    DurationsAccepted(env.timing.value.slotsPerEpoch, env.timing.value.secondsPerSlot);
  }

  /** A run succeeds exactly when nothing fails, the fault was injected in time, and all numbers fit. */
  lemma {:induction false} SuccessMeaning(c: Plan, env: Env)
    requires Honest(c, env) && c.durationEpochs == 3 && c.postFaultEpochs == 4
    ensures RunSucceeds(c, env) <==>
              NothingFails(c, env) && CommonSlot(env.boundary.value.beacon, c.targets).Some?
              && var slot := CommonSlot(env.boundary.value.beacon, c.targets).value;
                 (c.isFault ==> InTime(c, env, slot)) && NumbersFit(c, env, env.timing.value, slot)
  {
    HonestBoundary(c, env);
    if env.timing.Some? && env.boundary.Some? {
      if c.isFault {
        FaultSuccess(c, env);
      } else {
        ControlSuccess(c, env);
      }
    }
  }

  lemma {:induction false} Follows(trace: seq<RunEvent>, e: RunEvent)
    ensures MonitorOf(trace + [e]) == Delta(MonitorOf(trace), e)
  {
    assert (trace + [e])[..|trace|] == trace;
  }

  function UpToRevert(r: PartitionRequest, endSlot: U64): seq<RunEvent> {
    [RawOpened, ObserverStarted, Apply(r, true), EndSnapshot(endSlot), Revert(r, true)]
  }

  lemma {:induction false} AfterRevert(r: PartitionRequest, endSlot: U64)
    ensures MonitorOf(UpToRevert(r, endSlot)) == Monitor(Removed(r), InUse, InUse, true, false, true)
  {
    Follows([], RawOpened);
    Follows([RawOpened], ObserverStarted);
    Follows([RawOpened, ObserverStarted], Apply(r, true));
    Follows([RawOpened, ObserverStarted, Apply(r, true)], EndSnapshot(endSlot));
    Follows([RawOpened, ObserverStarted, Apply(r, true), EndSnapshot(endSlot)], Revert(r, true));
    assert [] + [RawOpened] == [RawOpened] && [RawOpened] + [ObserverStarted] == [RawOpened, ObserverStarted];
    assert [RawOpened, ObserverStarted] + [Apply(r, true)] == [RawOpened, ObserverStarted, Apply(r, true)];
    assert [RawOpened, ObserverStarted, Apply(r, true)] + [EndSnapshot(endSlot)] ==
           [RawOpened, ObserverStarted, Apply(r, true), EndSnapshot(endSlot)];
    assert [RawOpened, ObserverStarted, Apply(r, true), EndSnapshot(endSlot)] + [Revert(r, true)] ==
             UpToRevert(r, endSlot);
  }

  /** Nothing is left over once everything has been published. */
  lemma {:induction false} AfterPublishing(done: seq<RunEvent>, seconds: nat)
    requires MonitorOf(done).observer.InUse? && MonitorOf(done).raw.InUse?
    ensures var m := MonitorOf(done + [ObserverStopped, RawClosed, ManifestWritten, MetadataWritten(seconds),
                                       ChecksumsWritten]);
            m.backend == MonitorOf(done).backend && m.raw.Released? && m.observer.Released?
  {
    Follows(done, ObserverStopped);
    Follows(done + [ObserverStopped], RawClosed);
    Follows(done + [ObserverStopped, RawClosed], ManifestWritten);
    Follows(done + [ObserverStopped, RawClosed, ManifestWritten], MetadataWritten(seconds));
    Follows(done + [ObserverStopped, RawClosed, ManifestWritten, MetadataWritten(seconds)], ChecksumsWritten);
    assert done + [ObserverStopped] + [RawClosed] == done + [ObserverStopped, RawClosed];
    assert done + [ObserverStopped, RawClosed] + [ManifestWritten] ==
             done + [ObserverStopped, RawClosed, ManifestWritten];
    assert done + [ObserverStopped, RawClosed, ManifestWritten] + [MetadataWritten(seconds)] ==
           done + [ObserverStopped, RawClosed, ManifestWritten, MetadataWritten(seconds)];
    assert done + [ObserverStopped, RawClosed, ManifestWritten, MetadataWritten(seconds)] + [ChecksumsWritten] ==
           done + [ObserverStopped, RawClosed, ManifestWritten, MetadataWritten(seconds), ChecksumsWritten];
  }

  ghost predicate NoCalls(trace: seq<RunEvent>) {
    forall e :: e in trace ==> !e.Apply? && !e.Revert?
  }

  lemma {:induction false} UntouchedWithoutCalls(trace: seq<RunEvent>)
    requires NoCalls(trace)
    ensures MonitorOf(trace).backend.Untouched?
  {
    if trace != [] {
      UntouchedWithoutCalls(trace[..|trace| - 1]);
    }
  }

  /** A control run never touches the backend, however it ends. */
  lemma {:induction false} ControlRunTouchesNothing(c: Plan, env: Env)
    requires c.targets != [] && !c.isFault
    ensures NoCalls(RunEvents(c, env))
  {
    assert NoCalls(StartEvents(env)) && NoCalls(PublishEvents(env, 0));
    assert BeginEvents(c, env) == StartEvents(env);
    assert NoCalls(BodyEvents(c, env));
    UntouchedWithoutCalls(BodyEvents(c, env));
  }

  /** In every successful fault run no target had been observed at or after the start slot when Apply had
      returned, and the fault cannot expire on its own before the end slot is over. */
  lemma {:induction false} FaultCoversWindow(
    c: Plan, env: Env, w: RunWindow, genesisTime: U64, genesisSlot: U64, applied: int)
    requires c.targets != [] && c.isFault && RunSucceeds(c, env) && IsRunWindow(c, env, w)
    requires env.timing.value.slotsPerEpoch > 0 && c.durationEpochs <= MAX_UINT64 - 2
    requires forall t :: t in c.targets ==> SlotsRespectTime(env.afterApply.beacon, t)
    // Apply is called after the boundary slot was observed.
    requires CurrentSlotAt(applied, genesisTime, env.timing.value.secondsPerSlot, genesisSlot).Ok?
    requires CurrentSlotAt(applied, genesisTime, env.timing.value.secondsPerSlot, genesisSlot).value >=
               BoundarySlot(c, env)
    ensures forall o :: o in env.afterApply.beacon && o.target in c.targets ==> o.currentSlot < w.startSlot
    ensures applied + Request(c, env.timing.value).ttl / SECOND >=
              SlotStart(genesisTime, genesisSlot, env.timing.value.secondsPerSlot, w.endSlot + 1)
  {
    var t := env.timing.value;
    NothingBeyond(env.afterApply.beacon, c.targets, BoundarySlot(c, env));
    DeadmanCoversWindow(c.durationEpochs, t.slotsPerEpoch, t.secondsPerSlot, genesisTime, genesisSlot,
                        BoundarySlot(c, env), applied);
  }
}
