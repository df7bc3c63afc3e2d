/** The run's configuration, and the summary it emits. */
module Summary {
  import opened Common
  import opened Recorder
  import opened Scenario
  import opened Split
  import opened Measurement
  import opened Results

  datatype Placement = Placement(
    participantID: Name, target: Name, pod: Name, node: Name, nodePool: Name, machineType: Name, resourcePolicy: Name)

  /** What a run needs besides its measurements. */
  datatype Resources = Resources(
    scenarioBytes: nat, hasValidatorClient: bool, hasChainIDClient: bool, hasArtifacts: bool, hasFaultBackend: bool,
    pollInterval: int, headHistoryLimit: int, namespace: string)

  datatype Config = Config(
    scenario: Scenario, runID: string, targets: seq<Name>, placements: seq<Placement>, dependencies: DependencyMetadata,
    resources: Resources)

  // ---------- Placements ----------

  predicate Filled(p: Placement) {
    && p.participantID != NO_NAME && p.target != NO_NAME && p.pod != NO_NAME && p.node != NO_NAME
    && p.nodePool != NO_NAME && p.machineType != NO_NAME && p.resourcePolicy != NO_NAME
  }

  /** Two placements are of different participants, on different nodes, and equally provisioned. */
  predicate Equivalent(p: Placement, q: Placement) {
    && p.participantID != q.participantID && p.node != q.node
    && p.machineType == q.machineType && p.resourcePolicy == q.resourcePolicy
  }

  ghost predicate AllEquivalent(ps: seq<Placement>) {
    && (forall i :: 0 <= i < |ps| ==> Filled(ps[i]))
    && (forall i, j :: 0 <= i < j < |ps| ==> Equivalent(ps[i], ps[j]))
  }

  predicate Places(pl: Placement, p: Participant) {
    pl.participantID == p.id && pl.target == p.beaconTarget
  }

  ghost predicate PlacementsValid(ps: seq<Participant>, placements: seq<Placement>) {
    && |placements| == |ps| && AllEquivalent(placements)
    && forall p :: p in ps ==> exists pl :: pl in placements && Places(pl, p)
  }

  method ValidatePlacements(ps: seq<Participant>, placements: seq<Placement>) returns (ok: bool)
    ensures ok <==> PlacementsValid(ps, placements)
  {
    if |placements| != |ps| {
      return false;
    }
    var byParticipant := ScanPlacements(placements);
    if byParticipant.Err? {
      return false;
    }
    for n := 0 to |ps|
      invariant forall i :: 0 <= i < n ==> exists pl :: pl in placements && Places(pl, ps[i])
    {
      if ps[n].id !in byParticipant.value || byParticipant.value[ps[n].id].target != ps[n].beaconTarget {
        NotPlaced(placements, byParticipant.value, ps[n]);
        assert ps[n] in ps;
        return false;
      }
      assert Places(byParticipant.value[ps[n].id], ps[n]);
    }
    ok := true;
  }

  lemma {:induction false} NotPlaced(placements: seq<Placement>, byParticipant: map<Name, Placement>, p: Participant)
    requires IndexesPlacements(placements, byParticipant)
    requires p.id !in byParticipant || byParticipant[p.id].target != p.beaconTarget
    ensures !exists pl :: pl in placements && Places(pl, p)
  {
  }

  ghost predicate IndexesPlacements(placements: seq<Placement>, m: map<Name, Placement>) {
    && (forall i :: 0 <= i < |placements| ==>
          placements[i].participantID in m && m[placements[i].participantID] == placements[i])
    && (forall id :: id in m ==> m[id] in placements && m[id].participantID == id)
  }

  function NodesOf(placements: seq<Placement>): set<Name> {
    set p | p in placements :: p.node
  }

  method ScanPlacements(placements: seq<Placement>) returns (r: Result<map<Name, Placement>>)
    ensures r.Ok? <==> AllEquivalent(placements)
    ensures r.Ok? ==> IndexesPlacements(placements, r.value)
  {
    var byParticipant: map<Name, Placement> := map[];
    var nodes: set<Name> := {};
    var referenceMachine, referencePolicy := NO_NAME, NO_NAME;
    ghost var done: seq<Placement> := [];
    for n := 0 to |placements|
      invariant done == placements[..n] && AllEquivalent(done)
      invariant IndexesPlacements(done, byParticipant) && nodes == NodesOf(done)
      invariant if done == [] then referenceMachine == NO_NAME
                else referenceMachine == done[0].machineType && referencePolicy == done[0].resourcePolicy
    {
      var p := placements[n];
      OneMorePlacement(done, p, byParticipant);
      if !Filled(p) || p.participantID in byParticipant || p.node in nodes
         || (referenceMachine != NO_NAME
             && (p.machineType != referenceMachine || p.resourcePolicy != referencePolicy)) {
        PrefixPlacements(placements, n, done, p);
        return Err;
      }
      if referenceMachine == NO_NAME {
        referenceMachine, referencePolicy := p.machineType, p.resourcePolicy;
      }
      byParticipant := byParticipant[p.participantID := p];
      nodes := nodes + {p.node};
      done := done + [p];
    }
    assert placements[..|placements|] == placements;
    return Ok(byParticipant);
  }

  lemma {:induction false} OneMorePlacement(done: seq<Placement>, p: Placement, m: map<Name, Placement>)
    requires AllEquivalent(done) && IndexesPlacements(done, m)
    ensures AllEquivalent(done + [p]) <==>
              && Filled(p) && p.participantID !in m && p.node !in NodesOf(done)
              && (done != [] ==> p.machineType == done[0].machineType && p.resourcePolicy == done[0].resourcePolicy)
    ensures p.participantID !in m ==> IndexesPlacements(done + [p], m[p.participantID := p])
    ensures NodesOf(done + [p]) == NodesOf(done) + {p.node}
  {
    var all := done + [p];
    assert all[|done|] == p;
    if AllEquivalent(all) {
      forall q | q in done ensures Equivalent(q, p) {
        var i :| 0 <= i < |done| && done[i] == q;
        assert Equivalent(all[i], all[|done|]);
      }
    } else if Filled(p) && p.participantID !in m && p.node !in NodesOf(done)
              && (done != [] ==> p.machineType == done[0].machineType && p.resourcePolicy == done[0].resourcePolicy) {
      forall i | 0 <= i < |done| ensures Equivalent(done[i], p) {
        assert done[i].node in NodesOf(done);
        assert i > 0 ==> Equivalent(done[0], done[i]);
      }
      assert false;
    }
  }

  lemma {:induction false} PrefixPlacements(placements: seq<Placement>, n: nat, done: seq<Placement>, p: Placement)
    requires n < |placements| && done == placements[..n] && p == placements[n]
    ensures AllEquivalent(placements) ==> AllEquivalent(done + [p])
  {
  }

  // ---------- Configuration ----------

  function TargetsOf(ps: seq<Participant>): set<Name> {
    set p | p in ps :: p.beaconTarget
  }

  predicate Provided(r: Resources, prefix: string, id: string, isFault: bool) {
    && r.scenarioBytes > 0 && r.hasValidatorClient && r.hasChainIDClient && r.hasArtifacts
    && r.pollInterval > 0 && r.headHistoryLimit >= 2
    && (isFault ==> r.hasFaultBackend) && r.namespace == prefix + id
  }

  /** The parts that everything else relies on. */
  ghost predicate ValidConfig(c: Config) {
    && Valid(c.scenario) && c.runID in c.scenario.methodology.runOrder
    && ParseRunID(c.runID).Some?
    && |c.targets| == 4 && Distinct(c.targets) && Elements(c.targets) <= TargetsOf(c.scenario.participants)
    && PlacementsValid(c.scenario.participants, c.placements) && ValidDependencies(c.dependencies)
  }

  /** The whole check of a configuration. */
  ghost predicate AcceptedConfig(c: Config) {
    && ValidConfig(c) && Accepted(c.scenario)
    && Provided(c.resources, c.scenario.target.namespacePrefix, c.runID, ParseRunID(c.runID).value.0.FaultRun?)
  }

  method ValidateConfig(c: Config) returns (identity: Option<(Condition, U64)>)
    ensures identity.Some? <==> AcceptedConfig(c)
    ensures identity.Some? ==> identity == ParseRunID(c.runID)
  {
    var valid := Validate(c.scenario);
    if !valid {
      return None;
    }
    var found := RunIdentity(c.runID, c.scenario.methodology);
    if found.None? {
      return None;
    }
    var r := c.resources;
    if r.scenarioBytes == 0 || |c.targets| != 4 || !r.hasValidatorClient || !r.hasChainIDClient || !r.hasArtifacts {
      return None;
    }
    if r.pollInterval <= 0 || r.headHistoryLimit < 2 {
      return None;
    }
    var targetsOk := CheckTargets(c.scenario.participants, c.targets);
    if !targetsOk {
      return None;
    }
    if found.value.0 == FaultRun && !r.hasFaultBackend {
      return None;
    }
    if r.namespace != c.scenario.target.namespacePrefix + c.runID {
      return None;
    }
    identity := CheckParts(c, found.value);
  }

  method CheckParts(c: Config, found: (Condition, U64)) returns (identity: Option<(Condition, U64)>)
    ensures identity.Some? <==>
              PlacementsValid(c.scenario.participants, c.placements) && ValidDependencies(c.dependencies)
    ensures identity.Some? ==> identity == Some(found)
  {
    var placed := ValidatePlacements(c.scenario.participants, c.placements);
    if !placed {
      return None;
    }
    var pinned := ValidateDependencies(c.dependencies);
    identity := if pinned then Some(found) else None;
  }

  method RunIdentity(id: string, m: Methodology) returns (identity: Option<(Condition, U64)>)
    requires ValidMethodology(m)
    ensures identity == if id in m.runOrder then ParseRunID(id) else None
    ensures identity.Some? <==> id in m.runOrder
  {
    var found := false;
    for n := 0 to |m.runOrder|
      invariant found <==> id in m.runOrder[..n]
    {
      found := found || m.runOrder[n] == id;
    }
    assert m.runOrder[..|m.runOrder|] == m.runOrder;
    if found {
      CommittedIsNamed(m, id);
    }
    identity := if found then ParseRunID(id) else None;
  }

  method CheckTargets(ps: seq<Participant>, targets: seq<Name>) returns (ok: bool)
    ensures ok <==> Distinct(targets) && Elements(targets) <= TargetsOf(ps)
  {
    var expected := TargetsOf(ps);
    var seen: set<Name> := {};
    for n := 0 to |targets|
      invariant Distinct(targets[..n]) && seen == Elements(targets[..n]) && seen <= expected
    {
      assert targets[..n + 1] == targets[..n] + [targets[n]] && targets[n] in Elements(targets);
      if targets[n] !in expected {
        return false;
      }
      if targets[n] in seen {
        assert targets[n] in targets[..n];
        return false;
      }
      seen := seen + {targets[n]};
    }
    assert targets[..|targets|] == targets;
    ok := true;
  }

  /** The configured targets are exactly the participants' targets. */
  lemma {:induction false} TargetsCovered(c: Config)
    requires ValidConfig(c)
    ensures Elements(c.targets) == TargetsOf(c.scenario.participants)
  {
    DistinctSize(c.targets);
    TargetCount(c.scenario.participants);
    SameSizeSubset(Elements(c.targets), TargetsOf(c.scenario.participants));
  }

  lemma {:induction false} TargetCount(ps: seq<Participant>)
    ensures |TargetsOf(ps)| <= |ps|
  {
    if ps == [] {
      assert TargetsOf(ps) == {};
    } else {
      TargetCount(ps[1..]);
      assert TargetsOf(ps) == TargetsOf(ps[1..]) + {ps[0].beaconTarget};
    }
  }

  // ---------- The partition request ----------

  /** The pods by participant; a later placement replaces an earlier one. */
  function PodMap(placements: seq<Placement>): map<Name, Name> {
    if placements == [] then map[] else
    var last := placements[|placements| - 1];
    PodMap(placements[..|placements| - 1])[last.participantID := last.pod]
  }

  lemma {:induction false} PodMapMaps(placements: seq<Placement>)
    requires AllEquivalent(placements)
    ensures forall i :: 0 <= i < |placements| ==>
              Lookup(PodMap(placements), placements[i].participantID) == placements[i].pod
  {
    if placements != [] {
      var init, last := placements[..|placements| - 1], placements[|placements| - 1];
      PodMapMaps(init);
      forall i | 0 <= i < |init| ensures Lookup(PodMap(placements), init[i].participantID) == init[i].pod {
        assert Equivalent(placements[i], placements[|placements| - 1]);
      }
    }
  }

  function PodsOf(pods: map<Name, Name>, ids: seq<Name>): (r: seq<Name>)
    ensures |r| == |ids| && forall i :: 0 <= i < |ids| ==> r[i] == Lookup(pods, ids[i])
  {
    seq(|ids|, i requires 0 <= i < |ids| => Lookup(pods, ids[i]))
  }

  method PartitionSides(c: Config) returns (groupA: seq<Name>, groupB: seq<Name>)
    requires |c.scenario.fault.groups| >= 2
    ensures groupA == PodsOf(PodMap(c.placements), c.scenario.fault.groups[0].participants)
    ensures groupB == PodsOf(PodMap(c.placements), c.scenario.fault.groups[1].participants)
  {
    var podByParticipant: map<Name, Name> := map[];
    for n := 0 to |c.placements|
      invariant podByParticipant == PodMap(c.placements[..n])
    {
      assert c.placements[..n + 1][..n] == c.placements[..n];
      podByParticipant := podByParticipant[c.placements[n].participantID := c.placements[n].pod];
    }
    assert c.placements[..|c.placements|] == c.placements;
    groupA := CollectPods(podByParticipant, c.scenario.fault.groups[0].participants);
    groupB := CollectPods(podByParticipant, c.scenario.fault.groups[1].participants);
  }

  method CollectPods(podByParticipant: map<Name, Name>, ids: seq<Name>) returns (pods: seq<Name>)
    ensures pods == PodsOf(podByParticipant, ids)
  {
    pods := [];
    for n := 0 to |ids|
      invariant |pods| == n && forall i :: 0 <= i < n ==> pods[i] == Lookup(podByParticipant, ids[i])
    {
      pods := pods + [Lookup(podByParticipant, ids[n])];
    }
  }

  /** In a valid configuration every pod of the request is that of a placement of the group's own member,
      and every placed pod is on one of the two sides. */
  lemma {:induction false} PartitionCoversPlacements(ps: seq<Participant>, f: Fault, placements: seq<Placement>,
                                                     p: Participant, pl: Placement)
    requires ValidFault(f, ById(ps)) && ValidParticipants(ps) && PlacementsValid(ps, placements)
    requires p in ps && pl in placements && Places(pl, p)
    ensures || (pl.participantID in f.groups[0].participants
                && pl.pod in PodsOf(PodMap(placements), f.groups[0].participants))
            || (pl.participantID in f.groups[1].participants
                && pl.pod in PodsOf(PodMap(placements), f.groups[1].participants))
    ensures pl.pod != NO_NAME
  {
    TwoGroups(f.groups, ById(ps));
    PodMapMaps(placements);
    ByIdIndexes(ps);
    assert pl.participantID in Elements(Members(f.groups));
    var ids := if pl.participantID in f.groups[0].participants then f.groups[0].participants
               else f.groups[1].participants;
    var i :| 0 <= i < |ids| && ids[i] == pl.participantID;
    assert PodsOf(PodMap(placements), ids)[i] == pl.pod;
  }

  /** No member of a group is missing from the request. */
  lemma {:induction false} PartitionHasEveryMember(ps: seq<Participant>, f: Fault, placements: seq<Placement>, k: nat,
                                                   i: nat)
    requires ValidFault(f, ById(ps)) && ValidParticipants(ps) && PlacementsValid(ps, placements)
    requires k < 2 && i < |f.groups[k].participants|
    ensures exists pl :: pl in placements && pl.participantID == f.groups[k].participants[i]
              && PodsOf(PodMap(placements), f.groups[k].participants)[i] == pl.pod && pl.pod != NO_NAME
  {
    PodMapMaps(placements);
    ByIdIndexes(ps);
    assert f.groups[k] in f.groups;
    assert ValidGroup(f.groups[k], ById(ps));
    var id := f.groups[k].participants[i];
    var pl :| pl in placements && Places(pl, ById(ps)[id]);
    var n :| 0 <= n < |placements| && placements[n] == pl;
    assert Filled(placements[n]);
  }

  // ---------- Clients and groups by target ----------

  /** Later participants overwrite earlier ones. */
  function ClientsOf(ps: seq<Participant>): map<Name, Name> {
    if ps == [] then map[] else ClientsOf(ps[..|ps| - 1])[ps[|ps| - 1].beaconTarget := ps[|ps| - 1].clClient]
  }

  lemma {:induction false} ClientsByTarget(ps: seq<Participant>)
    ensures ClientsOf(ps).Keys == ByTarget(ps).Keys
    ensures forall t :: t in ByTarget(ps) ==> ClientsOf(ps)[t] == ByTarget(ps)[t].clClient
  {
    if ps != [] {
      ClientsByTarget(ps[..|ps| - 1]);
    }
  }

  /** One map holds the groups of participants and of targets: the group under the participant's id at
      that moment is copied to the target. */
  function Regroup(ps: seq<Participant>, placed: set<Name>, base: map<Name, Name>): map<Name, Name> {
    if ps == [] then base else
    var m := Regroup(ps[..|ps| - 1], placed, base);
    var p := ps[|ps| - 1];
    if p.id in placed then m[p.beaconTarget := Lookup(m, p.id)] else m
  }

  lemma {:induction false} RegroupFrame(ps: seq<Participant>, placed: set<Name>, base: map<Name, Name>, key: Name)
    requires forall p :: p in ps ==> p.beaconTarget != key
    ensures Lookup(Regroup(ps, placed, base), key) == Lookup(base, key)
  {
    if ps != [] {
      RegroupFrame(ps[..|ps| - 1], placed, base, key);
    }
  }

  /** No beacon target is the id of a later participant of another group. */
  ghost predicate NoHarmfulCollision(ps: seq<Participant>, base: map<Name, Name>) {
    forall i, j :: 0 <= i < j < |ps| && ps[i].beaconTarget == ps[j].id ==>
      Lookup(base, ps[i].id) == Lookup(base, ps[j].id)
  }

  ghost predicate GroupsRight(ps: seq<Participant>, m: map<Name, Name>, base: map<Name, Name>) {
    forall i :: 0 <= i < |ps| ==> Lookup(m, ps[i].beaconTarget) == Lookup(base, ps[i].id)
  }

  /** Every target ends up with its participant's group exactly when no harmful collision exists. */
  lemma {:induction false} RegroupIsRight(ps: seq<Participant>, placed: set<Name>, base: map<Name, Name>)
    requires TargetsDiffer(ps)
    requires forall p :: p in ps ==> p.id in placed
    ensures GroupsRight(ps, Regroup(ps, placed, base), base) <==> NoHarmfulCollision(ps, base)
  {
    if ps != [] {
      var init, p := ps[..|ps| - 1], ps[|ps| - 1];
      var m := Regroup(init, placed, base);
      RegroupIsRight(init, placed, base);
      LastRegrouped(init, p, m, Regroup(ps, placed, base), base);
      assert ps == init + [p];
      if forall q :: q in init ==> q.beaconTarget != p.id {
        RegroupFrame(init, placed, base, p.id);
      }
      LastCollision(init, p, base);
    }
  }

  lemma {:induction false} LastRegrouped(init: seq<Participant>, p: Participant, m: map<Name, Name>,
                                         m': map<Name, Name>, base: map<Name, Name>)
    requires forall q :: q in init ==> q.beaconTarget != p.beaconTarget
    requires m' == m[p.beaconTarget := Lookup(m, p.id)]
    ensures GroupsRight(init + [p], m', base) <==> GroupsRight(init, m, base) && Lookup(m, p.id) == Lookup(base, p.id)
  {
    var ps := init + [p];
    assert ps[|init|] == p;
    assert forall i :: 0 <= i < |init| ==>
             ps[i] == init[i] && Lookup(m', init[i].beaconTarget) == Lookup(m, init[i].beaconTarget);
  }

  lemma {:induction false} LastCollision(init: seq<Participant>, p: Participant, base: map<Name, Name>)
    ensures NoHarmfulCollision(init + [p], base) <==>
              && NoHarmfulCollision(init, base)
              && forall i :: 0 <= i < |init| && init[i].beaconTarget == p.id ==>
                   Lookup(base, init[i].id) == Lookup(base, p.id)
  {
    var ps := init + [p];
    assert ps[|init|] == p;
    assert forall i :: 0 <= i < |init| ==> ps[i] == init[i];
  }

  function IdsPlaced(placements: seq<Placement>): set<Name> {
    set p | p in placements :: p.participantID
  }

  method ClientsAndGroups(ps: seq<Participant>, placements: seq<Placement>, base: map<Name, Name>)
    returns (clients: map<Name, Name>, groups: map<Name, Name>)
    ensures clients == ClientsOf(ps) && groups == Regroup(ps, IdsPlaced(placements), base)
  {
    clients, groups := map[], base;
    for n := 0 to |ps|
      invariant clients == ClientsOf(ps[..n]) && groups == Regroup(ps[..n], IdsPlaced(placements), base)
    {
      assert ps[..n + 1][..n] == ps[..n];
      clients := clients[ps[n].beaconTarget := ps[n].clClient];
      groups := CopyGroup(ps[n], placements, groups);
    }
    assert ps[..|ps|] == ps;
  }

  /** The inner loop: copying twice changes nothing more. */
  method CopyGroup(p: Participant, placements: seq<Placement>, m: map<Name, Name>) returns (groups: map<Name, Name>)
    ensures groups == if p.id in IdsPlaced(placements) then m[p.beaconTarget := Lookup(m, p.id)] else m
  {
    groups := m;
    for n := 0 to |placements|
      invariant groups == if p.id in IdsPlaced(placements[..n]) then m[p.beaconTarget := Lookup(m, p.id)] else m
    {
      assert placements[..n + 1] == placements[..n] + [placements[n]];
      if placements[n].participantID == p.id {
        groups := groups[p.beaconTarget := Lookup(groups, p.id)];
      }
    }
    assert placements[..|placements|] == placements;
  }

  // ---------- The summary ----------

  /** What the run measured. */
  datatype Evidence = Evidence(
    initial: Dataset, ending: Dataset, final: Dataset, startSlot: U64, endSlot: U64,
    removedAt: nat, removalSlot: U64, windowComplete: bool)

  function StartEpoch(e: Evidence, t: Name): U64 {
    AtSlotOrZero(e.initial.beacon, t, e.startSlot).finalizedEpoch
  }

  function EndEpoch(e: Evidence, t: Name): U64 {
    AtSlotOrZero(e.ending.beacon, t, e.endSlot).finalizedEpoch
  }

  function FinalizedEpochProgress(start: U64, end: U64): Result<U64> {
    if end < start then Err else Ok(end - start)
  }

  ghost predicate Diverged(c: Config, e: Evidence, names: seq<Name>)
    requires e.startSlot <= e.endSlot
  {
    var tolerance := c.scenario.thresholds.headDivergenceToleranceSlots;
    tolerance < MAX_UINT64
    && HasBadRun(Disagreements(e.final.beacon, names), e.startSlot, e.endSlot - tolerance, tolerance + 1)
  }

  ghost predicate IsTargetResult(e: Evidence, condition: Condition, t: Name, r: TargetResult) {
    && r.target == t && r.startEpoch == StartEpoch(e, t) && r.endEpoch == EndEpoch(e, t)
    && r.progress == (if r.startEpoch <= r.endEpoch then r.endEpoch - r.startEpoch else 0)
    && if condition.FaultRun? then IsRecovery(e.final.beacon, t, r.endEpoch, e.removedAt, e.removalSlot, r.recovery)
       else r.recovery.None?
  }

  method SummarizeTarget(e: Evidence, condition: Condition, t: Name, start: U64, end: U64, client: Name, group: Name,
                         diverged: bool)
    returns (r: TargetResult, regressed: bool)
    requires start == StartEpoch(e, t) && end == EndEpoch(e, t)
    ensures IsTargetResult(e, condition, t, r)
    ensures r.clClient == client && r.group == group && r.divergenceExceeded == diverged
    ensures regressed <==> end < start
  {
    var progress := FinalizedEpochProgress(start, end);
    var recovery: Option<U64> := None;
    if condition == FaultRun {
      recovery := RecoverySlots(e.final.beacon, t, end, e.removedAt, e.removalSlot);
    }
    r := TargetResult(t, client, group, start, end, if progress.Ok? then progress.value else 0, recovery, diverged);
    regressed := progress.Err?;
  }

  /** A result with its client, group and divergence verdict. */
  ghost predicate Summarized(e: Evidence, condition: Condition, t: Name, clients: map<Name, Name>,
                             groups: map<Name, Name>, diverged: bool, r: TargetResult)
  {
    && IsTargetResult(e, condition, t, r) && r.divergenceExceeded == diverged
    && r.clClient == Lookup(clients, t) && r.group == Lookup(groups, t)
  }

  /** The targets whose finality went backwards over the window. */
  function Regressions(e: Evidence, names: seq<Name>): seq<DataGap> {
    if names == [] then [] else
    var t := names[|names| - 1];
    Regressions(e, names[..|names| - 1]) + if EndEpoch(e, t) < StartEpoch(e, t) then [Regression(t)] else []
  }

  ghost predicate IsRegression(e: Evidence, names: seq<Name>, g: DataGap) {
    g.Regression? && g.target in names && EndEpoch(e, g.target) < StartEpoch(e, g.target)
  }

  lemma {:induction false} RegressionsFound(e: Evidence, names: seq<Name>)
    ensures forall g :: g in Regressions(e, names) <==> IsRegression(e, names, g)
  {
    if names != [] {
      RegressionsFound(e, names[..|names| - 1]);
    }
  }

  lemma {:induction false} OneMoreRegression(e: Evidence, names: seq<Name>, n: nat)
    requires n < |names|
    ensures Regressions(e, names[..n + 1]) ==
              Regressions(e, names[..n])
              + if EndEpoch(e, names[n]) < StartEpoch(e, names[n]) then [Regression(names[n])] else []
  {
    assert names[..n + 1][..n] == names[..n];
  }

  method SummarizeTargets(e: Evidence, condition: Condition, names: seq<Name>, clients: map<Name, Name>,
                          groups: map<Name, Name>, starts: map<Name, BeaconObservation>,
                          ends: map<Name, BeaconObservation>, diverged: bool)
    returns (results: seq<TargetResult>, regressions: seq<DataGap>)
    requires starts == AtSlotMap(e.initial.beacon, names, e.startSlot)
    requires ends == AtSlotMap(e.ending.beacon, names, e.endSlot)
    ensures |results| == |names|
    ensures forall i :: 0 <= i < |names| ==> Summarized(e, condition, names[i], clients, groups, diverged, results[i])
    ensures regressions == Regressions(e, names)
  {
    results, regressions := [], [];
    for n := 0 to |names|
      invariant |results| == n && regressions == Regressions(e, names[..n])
      invariant forall i :: 0 <= i < n ==> Summarized(e, condition, names[i], clients, groups, diverged, results[i])
    {
      var t := names[n];
      OneMoreRegression(e, names, n);
      var r, regressed := SummarizeTarget(e, condition, t, starts[t].finalizedEpoch, ends[t].finalizedEpoch,
                                          Lookup(clients, t), Lookup(groups, t), diverged);
      results := results + [r];
      regressions := regressions + if regressed then [Regression(t)] else [];
    }
    assert names[..|names|] == names;
  }

  ghost predicate IsPrimaryProblem(e: Evidence, names: seq<Name>, startTime: nat, endTime: nat, g: DataGap) {
    IsPrimaryGap(g, e.final, names, e.startSlot, e.endSlot, startTime, endTime) || IsRegression(e, names, g)
  }

  ghost predicate IsRecoveryProblem(e: Evidence, condition: Condition, g: DataGap) {
    condition.FaultRun? && IsRecoveryGap(g, e.final, e.removedAt, e.windowComplete)
  }

  /** The groups of the targets, as the summary takes them from the shared map. */
  function TargetGroups(c: Config): map<Name, Name> {
    Regroup(c.scenario.participants, IdsPlaced(c.placements), GroupOf(c.scenario.fault.groups))
  }

  ghost predicate IsWindow(e: Evidence, names: seq<Name>, w: Window) {
    && w.startSlot == e.startSlot && w.endSlot == e.endSlot
    && IsLatestTime(w.startedAt, AtSlotMap(e.initial.beacon, names, e.startSlot))
    && IsLatestTime(w.endedAt, AtSlotMap(e.ending.beacon, names, e.endSlot))
  }

  ghost predicate IsResults(c: Config, e: Evidence, names: seq<Name>, condition: Condition, results: seq<TargetResult>)
    requires e.startSlot <= e.endSlot
  {
    var diverged := Diverged(c, e, names);
    |results| == |names| && forall i :: 0 <= i < |names| ==>
      Summarized(e, condition, names[i], ClientsOf(c.scenario.participants), TargetGroups(c), diverged, results[i])
  }

  /** What the two completeness verdicts and the gap list mean. */
  ghost predicate IsCompleteness(e: Evidence, names: seq<Name>, condition: Condition, r: RunSummary) {
    && (r.primaryComplete <==> forall g :: !IsPrimaryProblem(e, names, r.window.startedAt, r.window.endedAt, g))
    && (r.recoveryComplete <==> forall g :: !IsRecoveryProblem(e, condition, g))
    && forall g :: g in r.gaps <==>
         IsPrimaryProblem(e, names, r.window.startedAt, r.window.endedAt, g) || IsRecoveryProblem(e, condition, g)
  }

  ghost predicate IsSummary(c: Config, e: Evidence, condition: Condition, repetition: U64, split: RealizedSplit,
                            r: RunSummary)
    requires e.startSlot <= e.endSlot
  {
    var names := SortNames(c.targets);
    && r.schemaVersion == RUN_SCHEMA && r.runID == c.runID && r.condition == condition && r.repetition == repetition
    && r.split == split && r.dependencies == c.dependencies && r.confounders == Confounders(true, true, true)
    && IsWindow(e, names, r.window) && IsResults(c, e, names, condition, r.targets)
    && IsCompleteness(e, names, condition, r)
  }

  method SummarizeRun(c: Config, e: Evidence, condition: Condition, repetition: U64, split: RealizedSplit)
    returns (r: RunSummary)
    requires e.startSlot <= e.endSlot
    ensures IsSummary(c, e, condition, repetition, split, r)
  {
    var names := SortNames(c.targets);
    var starts := ObservationsAtSlotMap(e.initial.beacon, names, e.startSlot);
    var ends := ObservationsAtSlotMap(e.ending.beacon, names, e.endSlot);
    var results, regressions := TargetResults(c, e, names, condition, starts, ends);
    var primaryGaps, startTime, endTime := PrimaryMeasurementGaps(e.final, e.startSlot, e.endSlot, starts, ends, names);
    var recoveryGaps := [];
    if condition == FaultRun {
      recoveryGaps := RecoveryMeasurementGaps(e.final, e.removedAt, e.windowComplete);
    }
    var window := Window(startTime, endTime, e.startSlot, e.endSlot);
    r := RunSummary(RUN_SCHEMA, c.runID, condition, repetition, window, |primaryGaps + regressions| == 0,
                    |recoveryGaps| == 0, primaryGaps + regressions + recoveryGaps, results, split, c.dependencies,
                    Confounders(true, true, true));
    RegressionsFound(e, names);
    Completeness(e, names, condition, r, primaryGaps + regressions, recoveryGaps);
  }

  /** The results of the targets; every one carries the same divergence verdict. */
  method TargetResults(c: Config, e: Evidence, names: seq<Name>, condition: Condition,
                       starts: map<Name, BeaconObservation>, ends: map<Name, BeaconObservation>)
    returns (results: seq<TargetResult>, regressions: seq<DataGap>)
    requires e.startSlot <= e.endSlot
    requires starts == AtSlotMap(e.initial.beacon, names, e.startSlot)
    requires ends == AtSlotMap(e.ending.beacon, names, e.endSlot)
    ensures IsResults(c, e, names, condition, results) && regressions == Regressions(e, names)
  {
    var base := GroupsByParticipant(c.scenario.fault.groups);
    var clients, groups := ClientsAndGroups(c.scenario.participants, c.placements, base);
    var diverged := HeadDivergenceExceeded(e.final.beacon, names, e.startSlot, e.endSlot,
                                           c.scenario.thresholds.headDivergenceToleranceSlots);
    results, regressions := SummarizeTargets(e, condition, names, clients, groups, starts, ends, diverged);
  }

  lemma {:induction false} Completeness(e: Evidence, names: seq<Name>, condition: Condition, r: RunSummary,
                                        primary: seq<DataGap>, recovery: seq<DataGap>)
    requires forall g :: g in primary <==> IsPrimaryProblem(e, names, r.window.startedAt, r.window.endedAt, g)
    requires forall g :: g in recovery <==> IsRecoveryProblem(e, condition, g)
    requires r.primaryComplete == (|primary| == 0) && r.recoveryComplete == (|recovery| == 0)
    requires r.gaps == primary + recovery
    ensures IsCompleteness(e, names, condition, r)
  {
    EmptyMeansNone(primary);
    EmptyMeansNone(recovery);
  }

  lemma {:induction false} EmptyMeansNone(gaps: seq<DataGap>)
    ensures |gaps| == 0 <==> forall g :: g !in gaps
  {
    if |gaps| > 0 {
      assert gaps[0] in gaps;
    }
  }

  // ---------- What the summary is worth ----------

  lemma {:induction false} SortedTargets(c: Config)
    requires ValidConfig(c)
    ensures |SortNames(c.targets)| == 4 && Distinct(SortNames(c.targets))
    ensures forall t :: t in SortNames(c.targets) <==> t in TargetsOf(c.scenario.participants)
  {
    PermutationElements(SortNames(c.targets), c.targets);
    TargetsCovered(c);
    assert forall t :: t in c.targets <==> t in Elements(c.targets);
  }

  lemma {:induction false} AllPlaced(c: Config)
    requires ValidConfig(c)
    ensures forall p :: p in c.scenario.participants ==> p.id in IdsPlaced(c.placements)
  {
  }

  /** What the proofs below use of the maps from targets to participants and clients. */
  ghost predicate TargetMaps(ps: seq<Participant>, names: seq<Name>, byTarget: map<Name, Participant>,
                             clients: map<Name, Name>)
  {
    && (forall t :: t in names <==> t in TargetsOf(ps))
    && (forall k :: 0 <= k < |ps| ==> ps[k].beaconTarget in byTarget && byTarget[ps[k].beaconTarget] == ps[k])
    && (forall t :: t in byTarget ==> Lookup(clients, t) == byTarget[t].clClient)
  }

  /** The results are all valid exactly when every target has its participant's group. */
  lemma {:induction false} ResultsValid(e: Evidence, names: seq<Name>, condition: Condition, clients: map<Name, Name>,
                                        groups: map<Name, Name>, diverged: bool, results: seq<TargetResult>,
                                        ps: seq<Participant>, byTarget: map<Name, Participant>, base: map<Name, Name>)
    requires TargetMaps(ps, names, byTarget, clients) && |results| == |names|
    requires forall i :: 0 <= i < |names| ==>
               Summarized(e, condition, names[i], clients, groups, diverged, results[i])
               && StartEpoch(e, names[i]) <= EndEpoch(e, names[i])
    ensures (forall i :: 0 <= i < |results| ==> TargetValid(results[i], byTarget, base)) <==>
              GroupsRight(ps, groups, base)
  {
    TargetsAreRight(ps, names, byTarget, groups, base);
    forall i | 0 <= i < |names|
      ensures TargetValid(results[i], byTarget, base) <==>
                Lookup(groups, names[i]) == Lookup(base, byTarget[names[i]].id)
    {
      assert Summarized(e, condition, names[i], clients, groups, diverged, results[i]);
    }
  }

  lemma {:induction false} MapsOfTargets(ps: seq<Participant>, names: seq<Name>)
    requires ValidParticipants(ps) && forall t :: t in names <==> t in TargetsOf(ps)
    ensures TargetMaps(ps, names, ByTarget(ps), ClientsOf(ps))
  {
    ByTargetIndexes(ps);
    ClientsByTarget(ps);
  }

  /** What the next proofs use of a valid configuration. */
  ghost predicate TargetsMapped(c: Config) {
    && |SortNames(c.targets)| == 4 && Distinct(SortNames(c.targets)) && TargetsDiffer(c.scenario.participants)
    && (forall p :: p in c.scenario.participants ==> p.id in IdsPlaced(c.placements))
    && TargetMaps(c.scenario.participants, SortNames(c.targets), ByTarget(c.scenario.participants),
                  ClientsOf(c.scenario.participants))
  }

  lemma {:induction false} ConfigMaps(c: Config)
    requires ValidConfig(c)
    ensures TargetsMapped(c)
  {
    SortedTargets(c);
    AllPlaced(c);
    MapsOfTargets(c.scenario.participants, SortNames(c.targets));
  }

  /** A valid configuration's summary passes the analysis' window check exactly when it is complete, the
      split is within tolerance, and no beacon target is the id of a later participant of the other group. */
  lemma {:induction false} SummaryIsEvidence(c: Config, e: Evidence, condition: Condition, repetition: U64,
                                             split: RealizedSplit, r: RunSummary)
    requires ValidConfig(c) && e.startSlot <= e.endSlot && IsSummary(c, e, condition, repetition, split, r)
    ensures WindowValid(r, ByTarget(c.scenario.participants), GroupOf(c.scenario.fault.groups)) <==>
              && r.primaryComplete && split.withinTolerance
              && NoHarmfulCollision(c.scenario.participants, GroupOf(c.scenario.fault.groups))
  {
    ConfigMaps(c);
    MappedIsEvidence(c, e, condition, repetition, split, r);
  }

  lemma {:induction false} MappedIsEvidence(c: Config, e: Evidence, condition: Condition, repetition: U64,
                                            split: RealizedSplit, r: RunSummary)
    requires TargetsMapped(c) && e.startSlot <= e.endSlot && IsSummary(c, e, condition, repetition, split, r)
    ensures WindowValid(r, ByTarget(c.scenario.participants), GroupOf(c.scenario.fault.groups)) <==>
              && r.primaryComplete && split.withinTolerance
              && NoHarmfulCollision(c.scenario.participants, GroupOf(c.scenario.fault.groups))
  {
    var names := SortNames(c.targets);
    ResultTargets(c, e, names, condition, r.targets);
    if r.primaryComplete {
      NoRegression(e, names, condition, r);
      ResultsRight(c, e, names, condition, r.targets);
    }
  }

  /** Without a regression, every result is right exactly when there is no harmful collision. */
  lemma {:induction false} ResultsRight(c: Config, e: Evidence, names: seq<Name>, condition: Condition,
                                        results: seq<TargetResult>)
    requires e.startSlot <= e.endSlot && IsResults(c, e, names, condition, results)
    requires forall i :: 0 <= i < |names| ==> EndEpoch(e, names[i]) >= StartEpoch(e, names[i])
    requires TargetsMapped(c) && names == SortNames(c.targets)
    ensures (forall i :: 0 <= i < |results| ==>
               TargetValid(results[i], ByTarget(c.scenario.participants), GroupOf(c.scenario.fault.groups))) <==>
              NoHarmfulCollision(c.scenario.participants, GroupOf(c.scenario.fault.groups))
  {
    var ps, base := c.scenario.participants, GroupOf(c.scenario.fault.groups);
    RegroupIsRight(ps, IdsPlaced(c.placements), base);
    ResultsValid(e, names, condition, ClientsOf(ps), TargetGroups(c), Diverged(c, e, names), results, ps, ByTarget(ps),
                 base);
  }

  ghost predicate TargetsDiffer(ps: seq<Participant>) {
    forall i, j :: 0 <= i < j < |ps| ==> ps[i].beaconTarget != ps[j].beaconTarget
  }

  lemma {:induction false} NoRegression(e: Evidence, names: seq<Name>, condition: Condition, r: RunSummary)
    requires IsCompleteness(e, names, condition, r) && r.primaryComplete
    ensures forall i :: 0 <= i < |names| ==> EndEpoch(e, names[i]) >= StartEpoch(e, names[i])
  {
    forall i | 0 <= i < |names| ensures EndEpoch(e, names[i]) >= StartEpoch(e, names[i]) {
      assert !IsPrimaryProblem(e, names, r.window.startedAt, r.window.endedAt, Regression(names[i]));
    }
  }

  lemma {:induction false} ResultTargets(c: Config, e: Evidence, names: seq<Name>, condition: Condition,
                                         results: seq<TargetResult>)
    requires e.startSlot <= e.endSlot && IsResults(c, e, names, condition, results)
    requires Distinct(names)
    ensures DistinctTargets(results)
  {
  }

  /** The groups are right by sorted target name exactly when they are right by participant. */
  lemma {:induction false} TargetsAreRight(ps: seq<Participant>, names: seq<Name>, byTarget: map<Name, Participant>,
                        m: map<Name, Name>, base: map<Name, Name>)
    requires forall t :: t in names <==> t in TargetsOf(ps)
    requires forall k :: 0 <= k < |ps| ==> ps[k].beaconTarget in byTarget && byTarget[ps[k].beaconTarget] == ps[k]
    ensures forall i :: 0 <= i < |names| ==> names[i] in byTarget
    ensures (forall i :: 0 <= i < |names| ==> Lookup(m, names[i]) == Lookup(base, byTarget[names[i]].id)) <==>
              GroupsRight(ps, m, base)
  {
    forall i | 0 <= i < |names|
      ensures names[i] in byTarget
      ensures GroupsRight(ps, m, base) ==> Lookup(m, names[i]) == Lookup(base, byTarget[names[i]].id)
    {
      assert names[i] in TargetsOf(ps);
      var k :| 0 <= k < |ps| && ps[k].beaconTarget == names[i];
    }
    forall k | 0 <= k < |ps|
      ensures exists i :: 0 <= i < |names| && names[i] == ps[k].beaconTarget
    {
      assert ps[k].beaconTarget in TargetsOf(ps);
    }
  }

  /** The two completeness verdicts of a summary. */
  lemma {:induction false} CompletenessMeaning(e: Evidence, names: seq<Name>, condition: Condition, r: RunSummary)
    requires e.startSlot <= e.endSlot && IsCompleteness(e, names, condition, r)
    ensures r.primaryComplete <==>
              && (forall slot :: e.startSlot <= slot <= e.endSlot ==> SlotComplete(e.final.beacon, names, slot))
              && (forall f :: f in e.final.gaps ==> !InTimes(f, r.window.startedAt, r.window.endedAt))
              && (forall t :: t in names ==> StartEpoch(e, t) <= EndEpoch(e, t))
    ensures r.recoveryComplete <==>
              condition.FaultRun? ==> e.windowComplete && forall f :: f in e.final.gaps ==> f.timestamp < e.removedAt
  {
    NoPrimaryGaps(e.final, names, e.startSlot, e.endSlot, r.window.startedAt, r.window.endedAt);
    ProblemSplit(e, names, r.window.startedAt, r.window.endedAt);
    if r.recoveryComplete && condition.FaultRun? {
      assert !IsRecoveryProblem(e, condition, WindowIncomplete);
      forall f | f in e.final.gaps ensures f.timestamp < e.removedAt {
        assert !IsRecoveryProblem(e, condition, PollGap(f));
      }
    }
  }

  lemma {:induction false} ProblemSplit(e: Evidence, names: seq<Name>, startTime: nat, endTime: nat)
    ensures (forall g :: !IsPrimaryProblem(e, names, startTime, endTime, g)) <==>
              && (forall g :: !IsPrimaryGap(g, e.final, names, e.startSlot, e.endSlot, startTime, endTime))
              && (forall t :: t in names ==> StartEpoch(e, t) <= EndEpoch(e, t))
  {
    if forall g :: !IsPrimaryProblem(e, names, startTime, endTime, g) {
      forall g ensures !IsPrimaryGap(g, e.final, names, e.startSlot, e.endSlot, startTime, endTime) {
        assert !IsPrimaryProblem(e, names, startTime, endTime, g);
      }
      forall t | t in names ensures StartEpoch(e, t) <= EndEpoch(e, t) {
        assert !IsPrimaryProblem(e, names, startTime, endTime, Regression(t));
      }
    }
  }

  /** Every target was observed in the slot, and two of them report different heads. */
  ghost predicate HeadsDiffer(observations: seq<BeaconObservation>, names: seq<Name>, slot: int) {
    && SlotComplete(observations, names, slot)
    && exists s, t :: s in names && t in names
         && !SameHead(AtSlot(observations, s, slot).value, AtSlot(observations, t, slot).value)
  }

  lemma {:induction false} TwoInARow(bad: iset<int>, start: int, end: int)
    ensures HasBadRun(bad, start, end - 1, 2) <==>
              exists a, b :: start <= a && b == a + 1 && b <= end && a in bad && b in bad
  {
    if HasBadRun(bad, start, end - 1, 2) {
      var from :| start <= from <= end - 1 && BadRun(bad, from, 2);
      assert from in bad && from + 1 in bad;
    }
    if a, b :| start <= a && b == a + 1 && b <= end && a in bad && b in bad {
      assert BadRun(bad, a, 2);
    }
  }

  lemma {:induction false} BadWhenHeadsDiffer(observations: seq<BeaconObservation>, names: seq<Name>, slot: int)
    requires SlotComplete(observations, names, slot)
    ensures slot in Disagreements(observations, names) <==> HeadsDiffer(observations, names, slot)
  {
  }

  /** With the committed tolerance of one slot, a complete window has diverged exactly when two targets
      report different heads in each of two consecutive slots. */
  lemma {:induction false} DivergenceMeaning(c: Config, e: Evidence, names: seq<Name>)
    requires c.scenario.thresholds.headDivergenceToleranceSlots == 1 && e.startSlot <= e.endSlot
    requires forall slot :: e.startSlot <= slot <= e.endSlot ==> SlotComplete(e.final.beacon, names, slot)
    ensures Diverged(c, e, names) <==>
              exists a, b :: e.startSlot <= a && b == a + 1 && b <= e.endSlot
                && HeadsDiffer(e.final.beacon, names, a) && HeadsDiffer(e.final.beacon, names, b)
  {
    var bad := Disagreements(e.final.beacon, names);
    TwoInARow(bad, e.startSlot, e.endSlot);
    forall slot | e.startSlot <= slot <= e.endSlot ensures slot in bad <==> HeadsDiffer(e.final.beacon, names, slot) {
      BadWhenHeadsDiffer(e.final.beacon, names, slot);
    }
  }

  // ---------- What the waits add ----------

  /** The initial and the ending snapshot are those in which the waits saw every target at the start and the
      end slot, and the dataset only grows. */
  ghost predicate Waited(e: Evidence, names: seq<Name>) {
    && SlotComplete(e.initial.beacon, names, e.startSlot) && SlotComplete(e.ending.beacon, names, e.endSlot)
    && e.initial.beacon <= e.ending.beacon && e.ending.beacon <= e.final.beacon
  }

  ghost predicate SeenAt(observations: seq<BeaconObservation>, t: Name, slot: int, epoch: U64) {
    exists o :: o in observations && Matches(o, t, slot) && o.finalizedEpoch == epoch
  }

  /** After the waits the epochs of a summary are those of recorded observations in the start and end slot. */
  lemma {:induction false} EpochsAreObserved(e: Evidence, names: seq<Name>, t: Name)
    requires Waited(e, names) && t in names
    ensures SeenAt(e.final.beacon, t, e.startSlot, StartEpoch(e, t))
    ensures SeenAt(e.final.beacon, t, e.endSlot, EndEpoch(e, t))
  {
    AtSlotIsLatest(e.initial.beacon, t, e.startSlot);
    AtSlotIsLatest(e.ending.beacon, t, e.endSlot);
    var start, end := AtSlot(e.initial.beacon, t, e.startSlot).value, AtSlot(e.ending.beacon, t, e.endSlot).value;
    assert start in e.ending.beacon && start in e.final.beacon && end in e.final.beacon;
  }

  /** With them the window's times are real as well: those of observations in its first and last slot. */
  lemma {:induction false} TimesAreObserved(e: Evidence, names: seq<Name>, w: Window)
    requires Waited(e, names) && IsWindow(e, names, w) && names != []
    ensures exists o, t :: t in names && o in e.final.beacon && Matches(o, t, e.startSlot) && o.timestamp == w.startedAt
    ensures exists o, t :: t in names && o in e.final.beacon && Matches(o, t, e.endSlot) && o.timestamp == w.endedAt
  {
    assert forall o :: o in e.initial.beacon ==> o in e.final.beacon;
    assert forall o :: o in e.ending.beacon ==> o in e.final.beacon;
    LatestTimeIsObserved(e.initial.beacon, names, e.startSlot, w.startedAt);
    LatestTimeIsObserved(e.ending.beacon, names, e.endSlot, w.endedAt);
  }

  lemma {:induction false} LatestTimeIsObserved(observations: seq<BeaconObservation>, names: seq<Name>, slot: U64,
                                                time: nat)
    requires SlotComplete(observations, names, slot) && names != []
    requires IsLatestTime(time, AtSlotMap(observations, names, slot))
    ensures exists o, t :: t in names && o in observations && Matches(o, t, slot) && o.timestamp == time
  {
    var m := AtSlotMap(observations, names, slot);
    var k := names[0];
    assert k in m;
    if time != 0 {
      k :| k in m && m[k].timestamp == time;
    }
    AtSlotIsLatest(observations, k, slot);
    assert k in names && m[k] in observations && Matches(m[k], k, slot) && m[k].timestamp == time;
  }

  /** Every observation a complete summary is decided by is a recorded one: one per target and slot, from
      the first slot to the last. */
  lemma {:induction false} CompleteMeansObserved(e: Evidence, names: seq<Name>, condition: Condition, r: RunSummary,
                                                 t: Name, slot: U64)
    requires e.startSlot <= e.endSlot && IsCompleteness(e, names, condition, r) && r.primaryComplete
    requires t in names && e.startSlot <= slot <= e.endSlot
    ensures exists o :: o in e.final.beacon && Matches(o, t, slot)
  {
    CompletenessMeaning(e, names, condition, r);
    assert SlotComplete(e.final.beacon, names, slot);
    AtSlotIsLatest(e.final.beacon, t, slot);
  }
}
