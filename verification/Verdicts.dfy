/** What an analysis says about the runs, in terms of the recorded results alone. */
module Verdicts {
  import opened Common
  import opened Scenario
  import opened Results
  import opened Gates
  import opened GateC
  import opened Runs
  import opened Analysis

  // ---------- A usable window ----------

  /** The result is of the participant's target, with its client, its group, and its own progress. */
  ghost predicate ResultOf(s: Scenario, t: TargetResult, p: Participant) {
    && t.target == p.beaconTarget && t.clClient == p.clClient
    && IsGroupOf(s, p, t.group) && t.startEpoch + t.progress == t.endEpoch
  }

  ghost predicate IsResult(s: Scenario, t: TargetResult) {
    exists p :: p in s.participants && ResultOf(s, t, p)
  }

  /** The window is complete, even and controlled, and reports each of four participants once. */
  ghost predicate UsableWindow(s: Scenario, run: RunSummary) {
    && run.primaryComplete && run.split.withinTolerance
    && run.confounders.resourcesEqual && run.confounders.nodePlacementControlled
    && run.confounders.dependencyClosurePinned
    && |run.targets| == 4
    && (forall t :: t in run.targets ==> IsResult(s, t))
    && forall i, j :: 0 <= i < j < 4 ==> run.targets[i].target != run.targets[j].target
  }

  /** The two maps of the check, by target and by participant. */
  ghost predicate MapsFit(s: Scenario, byTarget: map<Name, Participant>, groupOf: map<Name, Name>) {
    && (forall p :: p in s.participants ==> p.beaconTarget in byTarget && byTarget[p.beaconTarget] == p)
    && (forall t :: t in byTarget ==> byTarget[t] in s.participants && byTarget[t].beaconTarget == t)
    && (forall p :: p in s.participants ==> IsGroupOf(s, p, Lookup(groupOf, p.id)))
    && forall g, id :: g in s.fault.groups && id in g.participants ==> Lookup(groupOf, id) == g.name
  }

  ghost predicate IsGroupOf(s: Scenario, p: Participant, name: Name) {
    exists g :: g in s.fault.groups && p.id in g.participants && name == g.name
  }

  lemma {:induction false} MapsOfScenario(s: Scenario)
    requires Valid(s)
    ensures MapsFit(s, ByTarget(s.participants), GroupOf(s.fault.groups))
  {
    ByTargetIndexes(s.participants);
    MembersOfGroups(s);
    EveryoneGrouped(s);
  }

  lemma {:induction false} MembersOfGroups(s: Scenario)
    requires Valid(s)
    ensures forall g, id :: g in s.fault.groups && id in g.participants ==>
              Lookup(GroupOf(s.fault.groups), id) == g.name
  {
    GroupOfMembers(s.fault.groups);
  }

  lemma {:induction false} EveryoneGrouped(s: Scenario)
    requires Valid(s)
    ensures forall p :: p in s.participants ==> IsGroupOf(s, p, Lookup(GroupOf(s.fault.groups), p.id))
  {
    forall p | p in s.participants ensures IsGroupOf(s, p, Lookup(GroupOf(s.fault.groups), p.id)) {
      GroupOfOne(s, p);
    }
  }

  lemma {:induction false} TargetMeaning(s: Scenario, t: TargetResult, byTarget: map<Name, Participant>,
                                         groupOf: map<Name, Name>)
    requires MapsFit(s, byTarget, groupOf)
    ensures TargetValid(t, byTarget, groupOf) <==> IsResult(s, t)
  {
    if TargetValid(t, byTarget, groupOf) {
      assert ResultOf(s, t, byTarget[t.target]);
    }
    if p :| p in s.participants && ResultOf(s, t, p) {
      assert Lookup(groupOf, p.id) == t.group;
    }
  }

  lemma {:induction false} GroupOfOne(s: Scenario, p: Participant)
    requires Valid(s) && p in s.participants
    ensures IsGroupOf(s, p, Lookup(GroupOf(s.fault.groups), p.id))
  {
    var i :| 0 <= i < |s.participants| && s.participants[i] == p;
    var m, groups := ById(s.participants), s.fault.groups;
    ByIdIndexes(s.participants);
    GroupOfMembers(groups);
    TwoGroups(groups, m);
    assert p.id in Elements(Members(groups));
    var g := if p.id in groups[0].participants then groups[0] else groups[1];
    assert g in groups && p.id in g.participants;
  }

  /** The check of a window accepts exactly the usable ones. */
  lemma {:induction false} UsableMeaning(s: Scenario, run: RunSummary)
    requires Valid(s)
    ensures Usable(s, run) <==> UsableWindow(s, run)
  {
    var byTarget, groupOf := ByTarget(s.participants), GroupOf(s.fault.groups);
    MapsOfScenario(s);
    forall i | 0 <= i < |run.targets|
      ensures TargetValid(run.targets[i], byTarget, groupOf) <==> IsResult(s, run.targets[i])
    {
      TargetMeaning(s, run.targets[i], byTarget, groupOf);
    }
  }

  // ---------- The questions of the gates ----------

  /** Both windows are usable and every target of the fault run made less progress than every target of the
      control run. */
  ghost predicate EffectIn(s: Scenario, control: RunSummary, fault: RunSummary) {
    && UsableWindow(s, control) && UsableWindow(s, fault)
    && forall x, y :: x in fault.targets && y in control.targets ==> x.progress < y.progress
  }

  /** No target made progress, and every one recovered. */
  ghost predicate StoodStillAndRecovered(fault: RunSummary) {
    forall x :: x in fault.targets ==> x.progress == 0 && x.recovery.Some?
  }

  ghost predicate EvenProgress(control: RunSummary) {
    forall x, y :: x in control.targets && y in control.targets ==> x.progress == y.progress
  }

  /** In its group, the target of the slow client recovered later than that of the fast one, by the threshold. */
  ghost predicate SlowerIn(fault: RunSummary, slow: Name, fast: Name, threshold: U64) {
    forall x, y ::
      x in fault.targets && y in fault.targets && x.clClient == slow && y.clClient == fast && x.group == y.group ==>
      x.recovery.Some? && y.recovery.Some? && x.recovery.value >= y.recovery.value + threshold
  }

  ghost predicate EffectShown(s: Scenario, t: Trial)
    requires ThreeRuns(t.controls) && ThreeRuns(t.faults)
  {
    && EffectIn(s, t.controls[1], t.faults[1]) && EffectIn(s, t.controls[2], t.faults[2])
    && EffectIn(s, t.controls[3], t.faults[3])
  }

  ghost predicate RecoveryComplete(t: Trial)
    requires ThreeRuns(t.faults)
  {
    t.faults[1].recoveryComplete && t.faults[2].recoveryComplete && t.faults[3].recoveryComplete
  }

  ghost predicate Predicted(t: Trial)
    requires ThreeRuns(t.faults)
  {
    && StoodStillAndRecovered(t.faults[1]) && StoodStillAndRecovered(t.faults[2])
    && StoodStillAndRecovered(t.faults[3])
  }

  ghost predicate SlowerThroughout(s: Scenario, t: Trial, slow: Name, fast: Name)
    requires ThreeRuns(t.faults)
  {
    var threshold := s.thresholds.clientRecoveryDifferenceSlots;
    && SlowerIn(t.faults[1], slow, fast, threshold) && SlowerIn(t.faults[2], slow, fast, threshold)
    && SlowerIn(t.faults[3], slow, fast, threshold)
  }

  ghost predicate IsClient(s: Scenario, c: Name) {
    exists p :: p in s.participants && p.clClient == c
  }

  ghost predicate AreClients(s: Scenario, slow: Name, fast: Name) {
    slow != fast && IsClient(s, slow) && IsClient(s, fast)
  }

  /** Progress was even in the control runs, and one client was slower than another in all fault runs. */
  ghost predicate ClientDiffers(s: Scenario, t: Trial)
    requires ThreeRuns(t.controls) && ThreeRuns(t.faults)
  {
    && EvenProgress(t.controls[1]) && EvenProgress(t.controls[2]) && EvenProgress(t.controls[3])
    && exists slow, fast :: AreClients(s, slow, fast) && SlowerThroughout(s, t, slow, fast)
  }

  lemma {:induction false} EffectMeaning(s: Scenario, t: Trial, k: U64)
    requires Valid(s) && ThreeRuns(t.controls) && ThreeRuns(t.faults) && 1 <= k <= 3
    ensures PairStands(s, t, k) <==> EffectIn(s, t.controls[k], t.faults[k])
  {
    UsableMeaning(s, t.controls[k]);
    UsableMeaning(s, t.faults[k]);
    BelowMeaning(t.faults[k].targets, t.controls[k].targets);
  }

  lemma {:induction false} BelowMeaning(faults: seq<TargetResult>, controls: seq<TargetResult>)
    ensures AllBelow(faults, controls) <==> forall x, y :: x in faults && y in controls ==> x.progress < y.progress
  {
    if forall x, y :: x in faults && y in controls ==> x.progress < y.progress {
      forall i, j | 0 <= i < |faults| && 0 <= j < |controls| ensures faults[i].progress < controls[j].progress {
        assert faults[i] in faults && controls[j] in controls;
      }
    }
  }

  lemma {:induction false} PredictionMeaning(fault: RunSummary)
    ensures AsPredicted(fault.targets) <==> StoodStillAndRecovered(fault)
  {
    assert forall i :: 0 <= i < |fault.targets| ==> fault.targets[i] in fault.targets;
  }

  lemma {:induction false} SlowerMeaning(fault: RunSummary, slow: Name, fast: Name, threshold: U64)
    ensures SlowerBy(fault.targets, slow, fast, threshold) <==> SlowerIn(fault, slow, fast, threshold)
  {
    assert forall i :: 0 <= i < |fault.targets| ==> fault.targets[i] in fault.targets;
  }

  lemma {:induction false} SlowestMeaning(s: Scenario, t: Trial, slow: Name, fast: Name)
    requires ThreeRuns(t.faults)
    ensures Slowest(s, t.faults, slow, fast) <==> SlowerThroughout(s, t, slow, fast)
  {
    SlowerMeaning(t.faults[1], slow, fast, s.thresholds.clientRecoveryDifferenceSlots);
    SlowerMeaning(t.faults[2], slow, fast, s.thresholds.clientRecoveryDifferenceSlots);
    SlowerMeaning(t.faults[3], slow, fast, s.thresholds.clientRecoveryDifferenceSlots);
  }

  lemma {:induction false} UniformMeaning(control: RunSummary)
    requires control.targets != []
    ensures Uniform(control.targets) <==> EvenProgress(control)
  {
    assert forall i :: 0 <= i < |control.targets| ==> control.targets[i] in control.targets;
  }

  /** The families are the clients of the participants. */
  lemma {:induction false} FamilyMeaning(ps: seq<Participant>, m: map<Name, Participant>, c: Name)
    requires IndexedBy(ps, m)
    ensures c in Families(m.Keys, m) <==> exists p :: p in ps && p.clClient == c
  {
    if p :| p in ps && p.clClient == c {
      var i :| 0 <= i < |ps| && ps[i] == p;
      assert p.id in m.Keys;
    }
    if c in Families(m.Keys, m) {
      var id :| id in m.Keys && m[id].clClient == c;
      assert m[id] in ps;
    }
  }

  lemma {:induction false} TwoClients(s: Scenario, a: Name, b: Name)
    requires Valid(s)
    ensures a != b && Families(ById(s.participants).Keys, ById(s.participants)) == {a, b} <==> AreClients(s, a, b)
  {
    OneOfEachFamily(s);
    ClientMeaning(s, a);
    ClientMeaning(s, b);
    PairOfTwo(Families(ById(s.participants).Keys, ById(s.participants)), a, b);
  }

  lemma {:induction false} ClientMeaning(s: Scenario, c: Name)
    requires Valid(s)
    ensures c in Families(ById(s.participants).Keys, ById(s.participants)) <==> IsClient(s, c)
  {
    ByIdIndexes(s.participants);
    FamilyMeaning(s.participants, ById(s.participants), c);
  }

  lemma {:induction false} PairOfTwo(families: set<Name>, a: Name, b: Name)
    requires |families| == 2
    ensures a != b && families == {a, b} <==> a != b && a in families && b in families
  {
    if a != b && a in families && b in families {
      assert {a, b} <= families && |{a, b}| == 2;
      SameSizeSubset({a, b}, families);
    }
  }

  lemma {:induction false} OneSlowerMeaning(s: Scenario, t: Trial)
    requires Valid(s) && ThreeRuns(t.faults)
    ensures OneSlower(s, t.faults, Families(ById(s.participants).Keys, ById(s.participants))) <==>
              exists slow, fast :: AreClients(s, slow, fast) && SlowerThroughout(s, t, slow, fast)
  {
    forall slow, fast
      ensures slow != fast && Families(ById(s.participants).Keys, ById(s.participants)) == {slow, fast} <==>
                AreClients(s, slow, fast)
      ensures Slowest(s, t.faults, slow, fast) <==> SlowerThroughout(s, t, slow, fast)
    {
      TwoClients(s, slow, fast);
      SlowestMeaning(s, t, slow, fast);
    }
  }

  lemma {:induction false} DifferenceMeaning(s: Scenario, t: Trial)
    requires Valid(s) && ThreeRuns(t.controls) && ThreeRuns(t.faults) && EffectShown(s, t)
    ensures GateCHolds(s, t.controls, t.faults) <==> ClientDiffers(s, t)
  {
    UniformMeaning(t.controls[1]);
    UniformMeaning(t.controls[2]);
    UniformMeaning(t.controls[3]);
    OneSlowerMeaning(s, t);
  }

  // ---------- The verdicts ----------

  ghost predicate Says(a: Analysis, gateA: Gate, gateB: Gate, gateC: Gate, conclusion: Finding) {
    a.gateA == gateA && a.gateB == gateB && a.gateC == gateC && a.conclusion == conclusion
  }

  /** The five outcomes of an analysis. Without the effect the experiment is invalid; without a complete recovery
      measurement the prediction is not evaluated; a prediction that fails is a finding about the network; and
      only past both gates are the clients compared. */
  ghost predicate VerdictFits(s: Scenario, t: Trial, a: Analysis)
    requires ThreeRuns(t.controls) && ThreeRuns(t.faults)
  {
    var none := Gate(NotEvaluated, NoFinding);
    var effect, matched := Gate(Yes, ValidExperiment), Gate(Yes, PredictionMatched);
    && (!EffectShown(s, t) ==> Says(a, Gate(No, InvalidExperiment), none, none, InvalidExperiment))
    && (EffectShown(s, t) && !RecoveryComplete(t) ==>
          Says(a, effect, Gate(NotEvaluated, InvalidMeasurement), none, InvalidExperiment))
    && (EffectShown(s, t) && RecoveryComplete(t) && !Predicted(t) ==>
          Says(a, effect, Gate(No, NetworkLevelFinding), none, NetworkLevelFinding))
    && (EffectShown(s, t) && RecoveryComplete(t) && Predicted(t) && ClientDiffers(s, t) ==>
          Says(a, effect, matched, Gate(Yes, ClientSpecificDifferentiation), ClientSpecificDifferentiation))
    && (EffectShown(s, t) && RecoveryComplete(t) && Predicted(t) && !ClientDiffers(s, t) ==>
          Says(a, effect, matched, Gate(No, NoClientDifferentiation), ValidPredictedUniformEffect))
  }

  /** The questions of the gates are the ones the analysis decides. */
  ghost predicate SameQuestions(s: Scenario, t: Trial)
    requires ThreeRuns(t.controls) && ThreeRuns(t.faults)
  {
    && (GateAHolds(s, t) <==> EffectShown(s, t)) && (RecoveryMeasured(t.faults) <==> RecoveryComplete(t))
    && (PredictionMatches(t.faults) <==> Predicted(t))
    && (EffectShown(s, t) ==> (GateCHolds(s, t.controls, t.faults) <==> ClientDiffers(s, t)))
  }

  lemma {:induction false} QuestionsAgree(s: Scenario, t: Trial)
    requires Valid(s) && ThreeRuns(t.controls) && ThreeRuns(t.faults)
    ensures SameQuestions(s, t)
  {
    EffectMeaning(s, t, 1);
    EffectMeaning(s, t, 2);
    EffectMeaning(s, t, 3);
    PredictionsAgree(t);
    if EffectShown(s, t) {
      DifferenceMeaning(s, t);
    }
  }

  lemma {:induction false} PredictionsAgree(t: Trial)
    requires ThreeRuns(t.faults)
    ensures RecoveryMeasured(t.faults) <==> RecoveryComplete(t)
    ensures PredictionMatches(t.faults) <==> Predicted(t)
  {
    PredictionMeaning(t.faults[1]);
    PredictionMeaning(t.faults[2]);
    PredictionMeaning(t.faults[3]);
    assert forall k :: k in t.faults <==> k == 1 || k == 2 || k == 3;
  }

  lemma {:induction false} VerdictFollows(s: Scenario, t: Trial, a: Analysis)
    requires ThreeRuns(t.controls) && ThreeRuns(t.faults) && SameQuestions(s, t) && IsAnalysis(s, t, a)
    ensures VerdictFits(s, t, a)
  {
  }

  /** The verdict is the one that the runs call for. */
  lemma {:induction false} VerdictMeaning(s: Scenario, t: Trial, a: Analysis)
    requires Valid(s) && ThreeRuns(t.controls) && ThreeRuns(t.faults) && IsAnalysis(s, t, a)
    ensures VerdictFits(s, t, a)
  {
    QuestionsAgree(s, t);
    VerdictFollows(s, t, a);
  }

  // ---------- The evidence ----------

  ghost predicate IsLeast(x: nat, ts: seq<TargetResult>) {
    (forall t :: t in ts ==> x <= t.progress) && exists t :: t in ts && t.progress == x
  }

  ghost predicate IsGreatest(x: nat, ts: seq<TargetResult>) {
    (forall t :: t in ts ==> t.progress <= x) && exists t :: t in ts && t.progress == x
  }

  /** The extremes of the two runs, and how far the fault run stayed behind at least. */
  ghost predicate EvidenceFits(p: PairEvidence, control: RunSummary, fault: RunSummary) {
    && IsLeast(p.controlMinimum, control.targets) && IsGreatest(p.faultMaximum, fault.targets)
    && if p.controlMinimum > p.faultMaximum then p.faultMaximum + p.difference == p.controlMinimum
       else p.difference == 0
  }

  lemma {:induction false} PairMeaning(k: U64, control: RunSummary, fault: RunSummary)
    requires control.targets != [] && fault.targets != []
    ensures Pair(k, control.targets, fault.targets).repetition == k
    ensures EvidenceFits(Pair(k, control.targets, fault.targets), control, fault)
  {
    var i := LeastIsLeast(control.targets);
    var j := GreatestIsGreatest(fault.targets);
    assert control.targets[i] in control.targets && fault.targets[j] in fault.targets;
  }

  ghost predicate BothUsable(s: Scenario, t: Trial, k: U64)
    requires k in t.controls && k in t.faults
  {
    UsableWindow(s, t.controls[k]) && UsableWindow(s, t.faults[k])
  }

  ghost predicate PairFits(s: Scenario, t: Trial, p: PairEvidence, n: U64)
    requires ThreeRuns(t.controls) && ThreeRuns(t.faults) && n <= 3
  {
    && 1 <= p.repetition <= n && BothUsable(s, t, p.repetition)
    && EvidenceFits(p, t.controls[p.repetition], t.faults[p.repetition])
  }

  ghost predicate PairListed(pairs: seq<PairEvidence>, k: U64) {
    exists p :: p in pairs && p.repetition == k
  }

  /** Exactly the repetitions with two usable windows are listed, in order, each with its evidence. */
  ghost predicate PairsFit(s: Scenario, t: Trial, pairs: seq<PairEvidence>, n: U64)
    requires ThreeRuns(t.controls) && ThreeRuns(t.faults) && n <= 3
  {
    && (forall p :: p in pairs ==> PairFits(s, t, p, n))
    && (forall i, j :: 0 <= i < j < |pairs| ==> pairs[i].repetition < pairs[j].repetition)
    && forall k :: 1 <= k <= n && BothUsable(s, t, k) ==> PairListed(pairs, k)
  }

  lemma {:induction false} PairAdded(s: Scenario, t: Trial, pairs: seq<PairEvidence>, last: PairEvidence, n: U64)
    requires ThreeRuns(t.controls) && ThreeRuns(t.faults) && 0 < n <= 3
    requires PairsFit(s, t, pairs, n - 1) && PairFits(s, t, last, n) && last.repetition == n
    ensures PairsFit(s, t, pairs + [last], n)
  {
    forall p | p in pairs ensures PairFits(s, t, p, n) && p.repetition < n {
      assert PairFits(s, t, p, n - 1);
    }
    forall k | 1 <= k <= n && BothUsable(s, t, k) ensures PairListed(pairs + [last], k) {
      if k == n {
        assert last in pairs + [last];
      } else {
        var p :| p in pairs && p.repetition == k;
        assert p in pairs + [last];
      }
    }
  }

  lemma {:induction false} NoPairAdded(s: Scenario, t: Trial, pairs: seq<PairEvidence>, n: U64)
    requires ThreeRuns(t.controls) && ThreeRuns(t.faults) && 0 < n <= 3
    requires PairsFit(s, t, pairs, n - 1) && !BothUsable(s, t, n)
    ensures PairsFit(s, t, pairs, n)
  {
    forall p | p in pairs ensures PairFits(s, t, p, n) {
      assert PairFits(s, t, p, n - 1);
    }
    forall k | 1 <= k <= n && BothUsable(s, t, k) ensures PairListed(pairs, k) {
      assert k != n;
    }
  }

  lemma {:induction false} BothUsableMeaning(s: Scenario, t: Trial, k: U64)
    requires Valid(s) && k in t.controls && k in t.faults
    ensures PairUsable(s, t, k) <==> BothUsable(s, t, k)
    ensures BothUsable(s, t, k) ==> t.controls[k].targets != [] && t.faults[k].targets != []
  {
    UsableMeaning(s, t.controls[k]);
    UsableMeaning(s, t.faults[k]);
  }

  lemma {:induction false} PairsMeaning(s: Scenario, t: Trial, n: U64)
    requires Valid(s) && ThreeRuns(t.controls) && ThreeRuns(t.faults) && n <= 3
    ensures PairsFit(s, t, PairsOf(s, t, n), n)
  {
    if n > 0 {
      PairsMeaning(s, t, n - 1);
      BothUsableMeaning(s, t, n);
      PairsStep(s, t, n);
    }
  }

  lemma {:induction false} PairsStep(s: Scenario, t: Trial, n: U64)
    requires ThreeRuns(t.controls) && ThreeRuns(t.faults) && 0 < n <= 3
    requires PairsFit(s, t, PairsOf(s, t, n - 1), n - 1) && (PairUsable(s, t, n) <==> BothUsable(s, t, n))
    requires BothUsable(s, t, n) ==> t.controls[n].targets != [] && t.faults[n].targets != []
    ensures PairsFit(s, t, PairsOf(s, t, n), n)
  {
    var before := PairsOf(s, t, n - 1);
    if BothUsable(s, t, n) {
      PairMeaning(n, t.controls[n], t.faults[n]);
      PairAdded(s, t, before, Pair(n, t.controls[n].targets, t.faults[n].targets), n);
    } else {
      NoPairAdded(s, t, before, n);
      assert PairsOf(s, t, n) == before + [] == before;
    }
  }

  ghost predicate InAscendingOrder(values: seq<nat>) {
    forall i, j :: 0 <= i < j < |values| ==> values[i] <= values[j]
  }

  /** The middle value of up to three, or the mean of two whose sum fits. */
  ghost predicate IsMedian(x: real, values: seq<nat>) {
    && (|values| == 1 ==> x == values[0] as real) && (|values| == 3 ==> x == values[1] as real)
    && (|values| == 2 && values[0] + values[1] <= MAX_UINT64 ==> 2.0 * x == (values[0] + values[1]) as real)
  }

  /** The values in order, the middle one or the mean of the middle two, and the extremes. */
  ghost predicate StatisticFits(x: Statistic, values: seq<nat>) {
    && multiset(x.values) == multiset(values) && InAscendingOrder(x.values) && IsMedian(x.median, x.values)
    && (values != [] ==> x.min in values && x.max in values) && forall v :: v in values ==> x.min <= v <= x.max
  }

  lemma {:induction false} StatisticMeaning(values: seq<nat>)
    ensures StatisticFits(Summarize(values), values)
  {
    if values != [] {
      SummarizeExtremes(values);
      SortedAscends(SortValues(values));
      MedianMeaning(SortValues(values));
    }
  }

  lemma {:induction false} SortedAscends(values: seq<nat>)
    requires Sorted(NatLe, values)
    ensures InAscendingOrder(values)
  {
    forall i, j | 0 <= i < j < |values| ensures values[i] <= values[j] {
      assert NatLe(values[i], values[j]);
    }
  }

  lemma {:induction false} MedianMeaning(sorted: seq<nat>)
    requires sorted != []
    ensures IsMedian(Median(sorted), sorted)
  {
    if |sorted| == 2 && sorted[0] + sorted[1] <= MAX_UINT64 {
      assert (sorted[0] + sorted[1]) % (MAX_UINT64 + 1) == sorted[0] + sorted[1];
    }
  }

  // ---------- Recovery by client ----------

  /** The latest recovery of the client's targets in the run. */
  ghost predicate IsLatestRecovery(x: nat, fault: RunSummary, client: Name) {
    && (forall t :: t in fault.targets && t.clClient == client ==> t.recovery.Some? && t.recovery.value <= x)
    && exists t :: t in fault.targets && t.clClient == client && t.recovery.Some? && t.recovery.value == x
  }

  lemma {:induction false} LatestRecoveryMeaning(fault: RunSummary, c: Name)
    requires StoodStillAndRecovered(fault) && MaxRecovery(fault.targets, c).Some?
    ensures IsLatestRecovery(MaxRecovery(fault.targets, c).value, fault, c)
  {
    var ts, latest := fault.targets, MaxRecovery(fault.targets, c);
    MaxRecoveryIsMax(ts, c);
    var i :| 0 <= i < |ts| && ts[i].clClient == c && ts[i].recovery == latest;
    assert ts[i] in ts;
    forall x | x in ts && x.clClient == c ensures x.recovery.Some? && x.recovery.value <= latest.value {
      var j :| 0 <= j < |ts| && ts[j] == x;
    }
  }

  /** The statistic of the client's latest recoveries in the three fault runs. */
  ghost predicate RecoveryFits(x: Statistic, t: Trial, client: Name)
    requires ThreeRuns(t.faults)
  {
    exists a, b, c: nat ::
      && IsLatestRecovery(a, t.faults[1], client) && IsLatestRecovery(b, t.faults[2], client)
      && IsLatestRecovery(c, t.faults[3], client) && StatisticFits(x, [a, b, c])
  }

  /** Past Gate B exactly the participants' clients have a statistic, each of its own recoveries. */
  lemma {:induction false} RecoveryByClientMeaning(s: Scenario, t: Trial, m: map<Name, Statistic>)
    requires Valid(s) && ThreeRuns(t.controls) && ThreeRuns(t.faults) && PastGateB(s, t)
    requires IsRecoveryStatistics(t.faults, m)
    ensures forall c :: c in m <==> IsClient(s, c)
    ensures forall c :: c in m ==> RecoveryFits(m[c], t, c)
  {
    StatisticsCoverFamilies(s, t, m);
    forall c ensures c in m <==> IsClient(s, c) {
      ClientMeaning(s, c);
    }
    forall c | c in m ensures RecoveryFits(m[c], t, c) {
      ClientRecovery(s, t, m, c);
    }
  }

  lemma {:induction false} ClientRecovery(s: Scenario, t: Trial, m: map<Name, Statistic>, c: Name)
    requires Valid(s) && ThreeRuns(t.controls) && ThreeRuns(t.faults) && PastGateB(s, t)
    requires IsRecoveryStatistics(t.faults, m) && c in Families(ById(s.participants).Keys, ById(s.participants))
    requires c in m
    ensures RecoveryFits(m[c], t, c)
  {
    PredictionsAgree(t);
    forall k | k in t.faults ensures Usable(s, t.faults[k]) && AsPredicted(t.faults[k].targets) {
      assert PairStands(s, t, k);
    }
    FamilyRecovered(s, t.faults[1], c);
    FamilyRecovered(s, t.faults[2], c);
    FamilyRecovered(s, t.faults[3], c);
    RecoveryOfThree(t, m, c);
  }

  lemma {:induction false} RecoveryOfThree(t: Trial, m: map<Name, Statistic>, c: Name)
    requires ThreeRuns(t.controls) && ThreeRuns(t.faults) && Predicted(t)
    requires IsRecoveryStatistics(t.faults, m) && c in m
    requires forall k :: k in t.faults ==> MaxRecovery(t.faults[k].targets, c).Some?
    ensures RecoveryFits(m[c], t, c)
  {
    LatestRecoveryMeaning(t.faults[1], c);
    LatestRecoveryMeaning(t.faults[2], c);
    LatestRecoveryMeaning(t.faults[3], c);
    ListedThree(t.faults, 1, 2, 3, c);
    var x, y, z := MaxRecovery(t.faults[1].targets, c), MaxRecovery(t.faults[2].targets, c),
                   MaxRecovery(t.faults[3].targets, c);
    assert Listed(t.faults, [1, 2, 3], c) == [x.value, y.value, z.value];
    assert EntryOf(m, c) == StatisticOf(t.faults, c);
    StatisticMeaning([x.value, y.value, z.value]);
  }

  // ---------- An analysis ----------

  /** The runs of a trial are of their condition and repetition. */
  ghost predicate RunsFit(runs: seq<RunSummary>, t: Trial)
    requires ThreeRuns(t.controls) && ThreeRuns(t.faults)
  {
    forall k {:trigger t.controls[k]} {:trigger t.faults[k]} :: 1 <= k <= 3 ==>
      && t.controls[k] in runs && t.controls[k].condition.ControlRun? && t.controls[k].repetition == k
      && t.faults[k] in runs && t.faults[k].condition.FaultRun? && t.faults[k].repetition == k
  }

  /** Everything an analysis reports follows from the runs. */
  ghost predicate ReportFits(s: Scenario, t: Trial, a: Analysis)
    requires ThreeRuns(t.controls) && ThreeRuns(t.faults)
  {
    && VerdictFits(s, t, a) && PairsFit(s, t, a.pairs, 3) && a.scenarioName == s.name
    && StatisticFits(a.controlMinimum, Minima(a.pairs)) && StatisticFits(a.faultMaximum, Maxima(a.pairs))
    && RecoveriesFit(s, t, a)
  }

  /** Past Gate B every client has the statistic of its recoveries; before, there are none. */
  ghost predicate RecoveriesFit(s: Scenario, t: Trial, a: Analysis)
    requires ThreeRuns(t.faults)
  {
    if a.gateB.outcome == Yes then
      && (forall c :: c in a.recoveryByClient <==> IsClient(s, c))
      && forall c :: c in a.recoveryByClient ==> RecoveryFits(a.recoveryByClient[c], t, c)
    else a.recoveryByClient == map[]
  }

  lemma {:induction false} TrialFits(s: Scenario, runs: seq<RunSummary>, t: Trial)
    requires IsTrial(s, runs, t)
    ensures RunsFit(runs, t)
    ensures |t.ordered| == |s.methodology.runOrder|
    ensures forall i :: 0 <= i < |t.ordered| ==> t.ordered[i] in runs && t.ordered[i].runID == s.methodology.runOrder[i]
  {
  }

  lemma {:induction false} Permuted(s: Scenario, runs: seq<RunSummary>, t: Trial)
    requires Accepted(s) && RunsAccepted(s, runs) && IsTrial(s, runs, t)
    ensures multiset(t.ordered) == multiset(runs)
  {
    TrialIsPermutation(s, runs, t);
  }

  /** An analysis of accepted runs lists them in the committed order, files them by condition and repetition, and
      reports what follows from them. */
  lemma {:induction false} AnalysisMeaning(s: Scenario, runs: seq<RunSummary>, r: Result<Analysis>)
    requires Decides(s, runs, r) && r.Ok?
    ensures multiset(r.value.runs) == multiset(runs) && |r.value.runs| == |s.methodology.runOrder|
    ensures forall i :: 0 <= i < |r.value.runs| ==> r.value.runs[i].runID == s.methodology.runOrder[i]
    ensures exists t: Trial ::
              ThreeRuns(t.controls) && ThreeRuns(t.faults) && RunsFit(runs, t) && ReportFits(s, t, r.value)
  {
    var t :| IsTrial(s, runs, t) && IsAnalysis(s, t, r.value);
    Permuted(s, runs, t);
    ReportMeaning(s, t, r.value);
    TrialFits(s, runs, t);
  }

  lemma {:induction false} RecoveriesMeaning(s: Scenario, t: Trial, a: Analysis)
    requires Valid(s) && ThreeRuns(t.controls) && ThreeRuns(t.faults) && IsAnalysis(s, t, a)
    ensures RecoveriesFit(s, t, a)
  {
    if PastGateB(s, t) {
      RecoveryByClientMeaning(s, t, a.recoveryByClient);
    }
  }

  lemma {:induction false} EvidenceMeaning(s: Scenario, t: Trial, a: Analysis)
    requires Valid(s) && ThreeRuns(t.controls) && ThreeRuns(t.faults) && IsAnalysis(s, t, a)
    ensures PairsFit(s, t, a.pairs, 3) && a.scenarioName == s.name
    ensures StatisticFits(a.controlMinimum, Minima(a.pairs)) && StatisticFits(a.faultMaximum, Maxima(a.pairs))
  {
    PairsMeaning(s, t, 3);
    StatisticMeaning(Minima(a.pairs));
    StatisticMeaning(Maxima(a.pairs));
  }

  lemma {:induction false} ReportMeaning(s: Scenario, t: Trial, a: Analysis)
    requires Valid(s) && ThreeRuns(t.controls) && ThreeRuns(t.faults) && IsAnalysis(s, t, a)
    ensures ReportFits(s, t, a)
  {
    VerdictMeaning(s, t, a);
    EvidenceMeaning(s, t, a);
    RecoveriesMeaning(s, t, a);
  }
}
