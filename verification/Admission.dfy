/** Which runs and which configurations are let in, in flat terms. */
module Admission {
  import opened Common
  import opened Scenario
  import opened Acceptance
  import opened Split
  import opened Results
  import opened Attribution
  import opened Runs
  import opened Summary

  // ---------- Which runs are accepted ----------

  ghost predicate HasId(run: RunSummary, id: string) {
    match run.condition
    case ControlRun =>
      || (run.repetition == 1 && id == "control-1") || (run.repetition == 2 && id == "control-2")
      || (run.repetition == 3 && id == "control-3")
    case FaultRun =>
      || (run.repetition == 1 && id == "fault-1") || (run.repetition == 2 && id == "fault-2")
      || (run.repetition == 3 && id == "fault-3")
  }

  /** A revision of forty digits, and packages and images that are pinned to such revisions and to digests. */
  ghost predicate DependenciesFit(d: DependencyMetadata) {
    && LowerHex(d.revision.text, 40) && d.importedPackages != map[] && d.runtimeImages != map[]
    && (forall k :: k in d.importedPackages ==> k.text != "" && LowerHex(d.importedPackages[k].text, 40))
    && forall k :: k in d.runtimeImages ==> k.text != "" && DigestPinned(d.runtimeImages[k].text)
  }

  ghost predicate RunFits(s: Scenario, run: RunSummary) {
    && run.schemaVersion == "ethquake.run/v1alpha1" && HasId(run, run.runID)
    && DependenciesFit(run.dependencies) && RecordsFit(s, run.split)
  }

  lemma {:induction false} AcceptedRunMeaning(s: Scenario, run: RunSummary)
    requires Valid(s)
    ensures RunAccepted(s, run) <==> RunFits(s, run)
  {
    IdentityMeaning(run);
    SplitAcceptedMeaning(s, run.split);
    PinsMeaning(run.dependencies);
    PartsMeaning(s, run);
  }

  lemma {:induction false} PartsMeaning(s: Scenario, run: RunSummary)
    requires ParseRunID(run.runID) == Some((run.condition, run.repetition)) <==> HasId(run, run.runID)
    requires SplitAccepted(s, run.split) <==> RecordsFit(s, run.split)
    requires ValidDependencies(run.dependencies) <==> DependenciesFit(run.dependencies)
    ensures RunAccepted(s, run) <==> RunFits(s, run)
  {
  }

  lemma {:induction false} IdentityMeaning(run: RunSummary)
    ensures ParseRunID(run.runID) == Some((run.condition, run.repetition)) <==> HasId(run, run.runID)
  {
    IdMeaning(run.runID);
    RunIDRoundTrip(run.runID, run.condition, run.repetition);
  }

  lemma {:induction false} PinsMeaning(d: DependencyMetadata)
    ensures ValidDependencies(d) <==> DependenciesFit(d)
  {
    forall k: Name ensures k == NO_NAME <==> k.text == "" {
    }
  }

  ghost predicate OneClosure(runs: seq<RunSummary>) {
    forall i, j :: 0 <= i < j < |runs| ==>
      runs[i].runID != runs[j].runID && runs[i].dependencies == runs[j].dependencies
  }

  /** Six runs are accepted exactly when each of them fits, no id is used twice, and all have one dependency
      closure. */
  lemma {:induction false} RunsMeaning(s: Scenario, runs: seq<RunSummary>)
    requires Valid(s)
    ensures RunsAccepted(s, runs) <==>
              |runs| == 6 && (forall run :: run in runs ==> RunFits(s, run)) && OneClosure(runs)
  {
    SixCommitted(s);
    EachFits(s, runs);
    assert AllComparable(runs) <==> OneClosure(runs);
  }

  lemma {:induction false} EachFits(s: Scenario, runs: seq<RunSummary>)
    requires Valid(s)
    ensures AllAccepted(s, runs) <==> forall run :: run in runs ==> RunFits(s, run)
  {
    forall run | run in runs ensures RunAccepted(s, run) <==> RunFits(s, run) {
      AcceptedRunMeaning(s, run);
    }
    assert forall i :: 0 <= i < |runs| ==> runs[i] in runs;
  }

  lemma {:induction false} SixCommitted(s: Scenario)
    requires Valid(s)
    ensures |s.methodology.runOrder| == 6
  {
  }

  // ---------- Which configurations are accepted ----------

  /** The placement is complete. */
  ghost predicate PlacementFilled(p: Placement) {
    && p.participantID.text != "" && p.target.text != "" && p.pod.text != "" && p.node.text != ""
    && p.nodePool.text != "" && p.machineType.text != "" && p.resourcePolicy.text != ""
  }

  /** Each participant is placed once, on a node of its own, and all on equal machines. */
  ghost predicate PlacementsFit(ps: seq<Participant>, placements: seq<Placement>) {
    && |placements| == |ps| && (forall p :: p in placements ==> PlacementFilled(p))
    && (forall i, j :: 0 <= i < j < |placements| ==>
          && placements[i].participantID != placements[j].participantID && placements[i].node != placements[j].node
          && placements[i].machineType == placements[j].machineType
          && placements[i].resourcePolicy == placements[j].resourcePolicy)
    && forall p :: p in ps ==>
         exists pl :: pl in placements && pl.participantID == p.id && pl.target == p.beaconTarget
  }

  ghost predicate ResourcesFit(r: Resources, runID: string) {
    && r.scenarioBytes > 0 && r.hasValidatorClient && r.hasChainIDClient && r.hasArtifacts && r.pollInterval > 0
    && r.headHistoryLimit >= 2 && r.namespace == "kt-ethquake-phase3-" + runID
    && (runID == "fault-1" || runID == "fault-2" || runID == "fault-3" ==> r.hasFaultBackend)
  }

  /** The run is one of the six, and its targets, placements and resources fit. */
  ghost predicate Furnished(c: Config) {
    && c.runID in ["control-1", "control-2", "control-3", "fault-1", "fault-2", "fault-3"]
    && |c.targets| == 4 && (forall i, j :: 0 <= i < j < 4 ==> c.targets[i] != c.targets[j])
    && (forall t :: t in c.targets ==> exists p :: p in c.scenario.participants && p.beaconTarget == t)
    && PlacementsFit(c.scenario.participants, c.placements) && DependenciesFit(c.dependencies)
    && ResourcesFit(c.resources, c.runID)
  }

  lemma {:induction false} PlacementsMeaning(ps: seq<Participant>, placements: seq<Placement>)
    ensures PlacementsValid(ps, placements) <==> PlacementsFit(ps, placements)
  {
    forall p ensures Filled(p) <==> PlacementFilled(p) {
      EmptyNames(p);
    }
    assert forall i :: 0 <= i < |placements| ==> placements[i] in placements;
    forall pl, p: Participant
      ensures Places(pl, p) <==> pl.participantID == p.id && pl.target == p.beaconTarget
    {
    }
  }

  lemma {:induction false} EmptyNames(p: Placement)
    ensures Filled(p) <==> PlacementFilled(p)
  {
    forall k: Name ensures k == NO_NAME <==> k.text == "" {
    }
  }

  lemma {:induction false} TargetsMeaning(c: Config)
    ensures Elements(c.targets) <= TargetsOf(c.scenario.participants) <==>
              forall t :: t in c.targets ==> exists p :: p in c.scenario.participants && p.beaconTarget == t
  {
    assert forall t :: t in Elements(c.targets) <==> t in c.targets;
  }

  lemma {:induction false} RunIdMeaning(c: Config)
    requires ValidMethodology(c.scenario.methodology)
    ensures c.runID in c.scenario.methodology.runOrder <==>
              c.runID in ["control-1", "control-2", "control-3", "fault-1", "fault-2", "fault-3"]
    ensures c.runID in c.scenario.methodology.runOrder ==> ParseRunID(c.runID).Some?
    ensures c.runID in c.scenario.methodology.runOrder ==>
              (ParseRunID(c.runID).value.0.FaultRun? <==>
                 c.runID == "fault-1" || c.runID == "fault-2" || c.runID == "fault-3")
  {
    var order := c.scenario.methodology.runOrder;
    assert c.runID in order <==> c.runID in Elements(order);
    assert c.runID in RUN_IDS <==> c.runID in Elements(RUN_IDS);
    IdMeaning(c.runID);
  }

  lemma {:induction false} ResourcesMeaning(c: Config, isFault: bool)
    requires isFault <==> c.runID == "fault-1" || c.runID == "fault-2" || c.runID == "fault-3"
    ensures Provided(c.resources, "kt-ethquake-phase3-", c.runID, isFault) <==> ResourcesFit(c.resources, c.runID)
  {
  }

  lemma {:induction false} FurnishedMeaning(c: Config)
    requires Valid(c.scenario) && c.scenario.target.namespacePrefix == "kt-ethquake-phase3-"
    ensures Furnished(c) <==>
              && ValidConfig(c)
              && Provided(c.resources, c.scenario.target.namespacePrefix, c.runID,
                          ParseRunID(c.runID).value.0.FaultRun?)
  {
    PlacementsMeaning(c.scenario.participants, c.placements);
    PinsMeaning(c.dependencies);
    TargetsMeaning(c);
    RunIdMeaning(c);
    if c.runID in c.scenario.methodology.runOrder {
      ResourcesMeaning(c, ParseRunID(c.runID).value.0.FaultRun?);
    }
  }

  /** A configuration is accepted exactly when its scenario is and it is furnished. */
  lemma {:induction false} ConfigMeaning(c: Config)
    ensures AcceptedConfig(c) <==> ScenarioFits(c.scenario) && Furnished(c)
  {
    AcceptedMeaning(c.scenario);
    if Accepted(c.scenario) {
      PrefixIs(c.scenario);
      FurnishedMeaning(c);
    }
  }

  lemma {:induction false} PrefixIs(s: Scenario)
    requires Accepted(s)
    ensures Valid(s) && s.target.namespacePrefix == "kt-ethquake-phase3-"
  {
  }
}
