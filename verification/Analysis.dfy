/** The adjudication of a trial through Gates A, B and C. */
module Analysis {
  import opened Common
  import opened Scenario
  import opened Results
  import opened Gates
  import opened GateC
  import opened Runs

  datatype Outcome = Yes | No | NotEvaluated

  datatype Finding =
    | ValidExperiment | InvalidExperiment | InvalidMeasurement
    | PredictionMatched | NetworkLevelFinding
    | ClientSpecificDifferentiation | NoClientDifferentiation | ValidPredictedUniformEffect
    | NoFinding

  datatype Gate = Gate(outcome: Outcome, classification: Finding)

  const NOT_EVALUATED := Gate(NotEvaluated, NoFinding)

  datatype PairEvidence = PairEvidence(repetition: U64, controlMinimum: U64, faultMaximum: U64, difference: U64)

  datatype Analysis = Analysis(
    scenarioName: Name, runs: seq<RunSummary>, pairs: seq<PairEvidence>,
    controlMinimum: Statistic, faultMaximum: Statistic, recoveryByClient: map<Name, Statistic>,
    gateA: Gate, gateB: Gate, gateC: Gate, conclusion: Finding)

  // ---------- Gate A ----------

  ghost predicate Usable(s: Scenario, run: RunSummary) {
    WindowValid(run, ByTarget(s.participants), GroupOf(s.fault.groups))
  }

  /** Both windows of the repetition can be used as evidence. */
  ghost predicate PairUsable(s: Scenario, t: Trial, k: U64)
    requires k in t.controls && k in t.faults
  {
    Usable(s, t.controls[k]) && Usable(s, t.faults[k])
  }

  /** The evidence of a usable pair; the difference is zero unless the fault run stayed behind. */
  function Pair(k: U64, control: seq<TargetResult>, fault: seq<TargetResult>): PairEvidence
    requires control != []
  {
    var least, greatest := LeastProgress(control), GreatestProgress(fault);
    PairEvidence(k, least, greatest, if least > greatest then least - greatest else 0)
  }

  ghost function PairsOf(s: Scenario, t: Trial, n: U64): seq<PairEvidence>
    requires ThreeRuns(t.controls) && ThreeRuns(t.faults) && n <= 3
  {
    if n == 0 then [] else
    PairsOf(s, t, n - 1) + if PairUsable(s, t, n) then [Pair(n, t.controls[n].targets, t.faults[n].targets)] else []
  }

  /** The repetition leaves Gate A standing: its windows are usable, and each fault target made less
      progress than each control target. */
  ghost predicate PairStands(s: Scenario, t: Trial, k: U64)
    requires k in t.controls && k in t.faults
  {
    PairUsable(s, t, k) && AllBelow(t.faults[k].targets, t.controls[k].targets)
  }

  ghost predicate GateAHolds(s: Scenario, t: Trial)
    requires ThreeRuns(t.controls) && ThreeRuns(t.faults)
  {
    PairStands(s, t, 1) && PairStands(s, t, 2) && PairStands(s, t, 3)
  }

  function Minima(pairs: seq<PairEvidence>): (r: seq<nat>) {
    seq(|pairs|, i requires 0 <= i < |pairs| => pairs[i].controlMinimum)
  }

  function Maxima(pairs: seq<PairEvidence>): (r: seq<nat>) {
    seq(|pairs|, i requires 0 <= i < |pairs| => pairs[i].faultMaximum)
  }

  lemma {:induction false} ExtremesOf(pairs: seq<PairEvidence>, p: PairEvidence)
    ensures Minima(pairs + [p]) == Minima(pairs) + [p.controlMinimum]
    ensures Maxima(pairs + [p]) == Maxima(pairs) + [p.faultMaximum]
  {
  }

  /** One repetition: its evidence if usable, and whether it leaves Gate A standing. */
  method ScanPair(s: Scenario, k: U64, control: RunSummary, fault: RunSummary,
                  byTarget: map<Name, Participant>, groupOf: map<Name, Name>)
    returns (pair: Option<PairEvidence>, stands: bool)
    requires byTarget == ByTarget(s.participants) && groupOf == GroupOf(s.fault.groups)
    ensures pair.Some? <==> Usable(s, control) && Usable(s, fault)
    ensures pair.Some? ==> control.targets != [] && pair.value == Pair(k, control.targets, fault.targets)
    ensures stands <==> Usable(s, control) && Usable(s, fault) && AllBelow(fault.targets, control.targets)
  {
    var controlValid := PrimaryWindowValid(control, byTarget, groupOf);
    var faultValid := PrimaryWindowValid(fault, byTarget, groupOf);
    if !controlValid || !faultValid {
      return None, false;
    }
    var controlValue := MinimumProgress(control.targets);
    var faultValue := MaximumProgress(fault.targets);
    var difference := 0;
    if controlValue > faultValue {
      difference := controlValue - faultValue;
    }
    ExtremesApart(fault.targets, control.targets);
    stands := controlValue > faultValue;
    pair := Some(PairEvidence(k, controlValue, faultValue, difference));
  }

  method ScanPairs(s: Scenario, t: Trial)
    returns (pairs: seq<PairEvidence>, controlProgress: seq<nat>, faultProgress: seq<nat>, holds: bool)
    requires ThreeRuns(t.controls) && ThreeRuns(t.faults)
    ensures pairs == PairsOf(s, t, 3) && controlProgress == Minima(pairs) && faultProgress == Maxima(pairs)
    ensures holds <==> GateAHolds(s, t)
  {
    var byTarget := ParticipantsByTarget(s.participants);
    var groupOf := GroupsByParticipant(s.fault.groups);
    var gateAValid := true;
    pairs, controlProgress, faultProgress := [], [], [];
    for k := 1 to 4
      invariant pairs == PairsOf(s, t, k - 1) && controlProgress == Minima(pairs) && faultProgress == Maxima(pairs)
      invariant gateAValid <==>
                  && (k > 1 ==> PairStands(s, t, 1)) && (k > 2 ==> PairStands(s, t, 2))
                  && (k > 3 ==> PairStands(s, t, 3))
      invariant gateAValid ==> |pairs| == k - 1
    {
      var pair, stands := ScanPair(s, k, t.controls[k], t.faults[k], byTarget, groupOf);
      gateAValid := gateAValid && stands;
      if pair.Some? {
        ExtremesOf(pairs, pair.value);
        pairs := pairs + [pair.value];
        controlProgress := controlProgress + [pair.value.controlMinimum];
        faultProgress := faultProgress + [pair.value.faultMaximum];
      }
    }
    holds := gateAValid && |pairs| == 3;
  }

  method ParticipantsByTarget(ps: seq<Participant>) returns (m: map<Name, Participant>)
    ensures m == ByTarget(ps)
  {
    m := map[];
    for n := 0 to |ps|
      invariant m == ByTarget(ps[..n])
    {
      assert ps[..n + 1][..n] == ps[..n];
      m := m[ps[n].beaconTarget := ps[n]];
    }
    assert ps[..|ps|] == ps;
  }

  // ---------- Gate B ----------

  ghost predicate RecoveryMeasured(faults: map<U64, RunSummary>) {
    forall k :: k in faults ==> faults[k].recoveryComplete
  }

  ghost predicate AsPredicted(ts: seq<TargetResult>) {
    forall i :: 0 <= i < |ts| ==> ts[i].progress == 0 && ts[i].recovery.Some?
  }

  ghost predicate PredictionMatches(faults: map<U64, RunSummary>) {
    forall k :: k in faults ==> AsPredicted(faults[k].targets)
  }

  /** The runs are ranged over in any order. */
  method CheckRecoveryMeasured(faults: map<U64, RunSummary>) returns (ok: bool)
    ensures ok <==> RecoveryMeasured(faults)
  {
    var rest := faults.Keys;
    while rest != {}
      invariant rest <= faults.Keys
      invariant forall k :: k in faults.Keys - rest ==> faults[k].recoveryComplete
    {
      var k :| k in rest;
      if !faults[k].recoveryComplete {
        return false;
      }
      rest := rest - {k};
    }
    ok := true;
  }

  method CheckPrediction(faults: map<U64, RunSummary>) returns (matched: bool)
    ensures matched <==> PredictionMatches(faults)
  {
    matched := true;
    var rest := faults.Keys;
    while rest != {}
      invariant rest <= faults.Keys
      invariant matched <==> forall k :: k in faults.Keys - rest ==> AsPredicted(faults[k].targets)
    {
      var k :| k in rest;
      var asPredicted := CheckRunTargets(faults[k].targets);
      matched := matched && asPredicted;
      rest := rest - {k};
    }
  }

  method CheckRunTargets(ts: seq<TargetResult>) returns (matched: bool)
    ensures matched <==> AsPredicted(ts)
  {
    matched := true;
    for n := 0 to |ts|
      invariant matched <==> forall i :: 0 <= i < n ==> ts[i].progress == 0 && ts[i].recovery.Some?
    {
      if ts[n].progress != 0 || ts[n].recovery.None? {
        matched := false;
      }
    }
  }

  // ---------- Recovery by client ----------

  /** The latest recovery among a client's targets, if it has any. */
  function MaxRecovery(ts: seq<TargetResult>, client: Name): Option<U64> {
    if ts == [] then None else
    var last, before := ts[|ts| - 1], MaxRecovery(ts[..|ts| - 1], client);
    if last.clClient == client && last.recovery.Some? && (before.None? || last.recovery.value > before.value) then
      last.recovery
    else before
  }

  lemma {:induction false} MaxRecoveryIsMax(ts: seq<TargetResult>, client: Name)
    ensures forall i :: 0 <= i < |ts| && ts[i].clClient == client && ts[i].recovery.Some? ==>
              MaxRecovery(ts, client).Some? && ts[i].recovery.value <= MaxRecovery(ts, client).value
    ensures MaxRecovery(ts, client).Some? ==>
              exists i :: 0 <= i < |ts| && ts[i].clClient == client && ts[i].recovery == MaxRecovery(ts, client)
  {
    if ts != [] {
      MaxRecoveryIsMax(ts[..|ts| - 1], client);
    }
  }

  method MaximumByClient(ts: seq<TargetResult>) returns (m: map<Name, U64>)
    requires AllRecovered(ts)
    ensures forall c :: MaximumOf(m, c) == MaxRecovery(ts, c)
  {
    m := map[];
    for n := 0 to |ts|
      invariant forall c :: MaximumOf(m, c) == MaxRecovery(ts[..n], c)
    {
      assert ts[..n + 1][..n] == ts[..n];
      var t := ts[n];
      assert MaximumOf(m, t.clClient) == MaxRecovery(ts[..n], t.clClient);
      if t.clClient !in m || t.recovery.value > m[t.clClient] {
        m := m[t.clClient := t.recovery.value];
      }
    }
    assert ts[..|ts|] == ts;
  }

  function MaximumOf(m: map<Name, U64>, c: Name): Option<U64> {
    if c in m then Some(m[c]) else None
  }

  function Singleton(value: Option<U64>): seq<nat> {
    if value.Some? then [value.value] else []
  }

  /** A client's latest recoveries in the runs of `order`. */
  function Listed(faults: map<U64, RunSummary>, order: seq<U64>, c: Name): seq<nat>
    requires forall k :: k in order ==> k in faults
  {
    if order == [] then [] else
    Listed(faults, order[..|order| - 1], c) + Singleton(MaxRecovery(faults[order[|order| - 1]].targets, c))
  }

  function ValuesOf(values: map<Name, seq<nat>>, c: Name): seq<nat> {
    if c in values then values[c] else []
  }

  ghost predicate NoEmptyList(values: map<Name, seq<nat>>) {
    forall c :: c in values ==> values[c] != []
  }

  /** Appends one run's maxima; its map is ranged over in any order. */
  method AppendMaxima(before: map<Name, seq<nat>>, m: map<Name, U64>) returns (values: map<Name, seq<nat>>)
    requires NoEmptyList(before)
    ensures NoEmptyList(values) && forall c :: ValuesOf(values, c) == ValuesOf(before, c) + Singleton(MaximumOf(m, c))
  {
    values := before;
    var rest := m.Keys;
    while rest != {}
      invariant rest <= m.Keys && NoEmptyList(values)
      invariant forall c :: c in rest ==> ValuesOf(values, c) == ValuesOf(before, c)
      invariant forall c :: c !in rest ==> ValuesOf(values, c) == ValuesOf(before, c) + Singleton(MaximumOf(m, c))
    {
      var c :| c in rest;
      rest := rest - {c};
      values := values[c := ValuesOf(values, c) + [m[c]]];
    }
  }

  /** The runs are ranged over in any order; `order` is the one taken. */
  method RecoveryValues(faults: map<U64, RunSummary>) returns (values: map<Name, seq<nat>>, ghost order: seq<U64>)
    requires forall k :: k in faults ==> AllRecovered(faults[k].targets)
    ensures Distinct(order) && Elements(order) == faults.Keys
    ensures NoEmptyList(values) && forall c :: ValuesOf(values, c) == Listed(faults, order, c)
  {
    values, order := map[], [];
    var rest := faults.Keys;
    while rest != {}
      invariant rest <= faults.Keys && Distinct(order) && Elements(order) == faults.Keys - rest
      invariant forall k :: k in order ==> k in faults
      invariant NoEmptyList(values) && forall c :: ValuesOf(values, c) == Listed(faults, order, c)
    {
      var k :| k in rest;
      var maxima := MaximumByClient(faults[k].targets);
      values := AppendMaxima(values, maxima);
      ListOne(faults, order, k);
      order := order + [k];
      rest := rest - {k};
    }
  }

  lemma {:induction false} ListOne(faults: map<U64, RunSummary>, order: seq<U64>, k: U64)
    requires (forall j :: j in order ==> j in faults) && k in faults
    ensures forall c :: Listed(faults, order + [k], c) ==
              Listed(faults, order, c) + Singleton(MaxRecovery(faults[k].targets, c))
    ensures Elements(order + [k]) == Elements(order) + {k}
    ensures Distinct(order) && k !in Elements(order) ==> Distinct(order + [k])
  {
  }

  function Bag(ts: seq<TargetResult>, c: Name): multiset<nat> {
    multiset(Singleton(MaxRecovery(ts, c)))
  }

  lemma {:induction false} ListedThree(faults: map<U64, RunSummary>, x: U64, y: U64, z: U64, c: Name)
    requires x in faults && y in faults && z in faults
    ensures Listed(faults, [x, y, z], c) ==
              Singleton(MaxRecovery(faults[x].targets, c)) + Singleton(MaxRecovery(faults[y].targets, c))
              + Singleton(MaxRecovery(faults[z].targets, c))
  {
    assert [x, y, z][..2] == [x, y] && [x, y][..1] == [x] && [x][..0] == [];
    assert Listed(faults, [x], c) == [] + Singleton(MaxRecovery(faults[x].targets, c));
  }

  lemma {:induction false} ThreeListed(faults: map<U64, RunSummary>, x: U64, y: U64, z: U64, c: Name)
    requires x in faults && y in faults && z in faults
    ensures multiset(Listed(faults, [x, y, z], c)) ==
              Bag(faults[x].targets, c) + Bag(faults[y].targets, c) + Bag(faults[z].targets, c)
  {
    ListedThree(faults, x, y, z, c);
  }

  lemma {:induction false} AnyOrder(a: multiset<nat>, b: multiset<nat>, c: multiset<nat>, x: multiset<nat>,
                                    y: multiset<nat>, z: multiset<nat>, order: seq<U64>)
    requires |order| == 3 && order[0] != order[1] && order[1] != order[2] && order[0] != order[2]
    requires forall i :: 0 <= i < 3 ==> order[i] in {1, 2, 3}
    requires x == Choose(order[0], a, b, c) && y == Choose(order[1], a, b, c) && z == Choose(order[2], a, b, c)
    ensures x + y + z == a + b + c
  {
  }

  function Choose(k: U64, a: multiset<nat>, b: multiset<nat>, c: multiset<nat>): multiset<nat> {
    if k == 1 then a else if k == 2 then b else c
  }

  /** The order of the runs does not matter to a client's statistic. */
  lemma {:induction false} ListedInAnyOrder(faults: map<U64, RunSummary>, order: seq<U64>, c: Name)
    requires ThreeRuns(faults) && Distinct(order) && Elements(order) == faults.Keys
    ensures Summarize(Listed(faults, order, c)) == Summarize(Listed(faults, [1, 2, 3], c))
    ensures Listed(faults, order, c) == [] <==> Listed(faults, [1, 2, 3], c) == []
  {
    OneTwoThree(order, faults.Keys);
    ThreeListed(faults, order[0], order[1], order[2], c);
    ThreeListed(faults, 1, 2, 3, c);
    AnyOrder(Bag(faults[1].targets, c), Bag(faults[2].targets, c), Bag(faults[3].targets, c),
             Bag(faults[order[0]].targets, c), Bag(faults[order[1]].targets, c), Bag(faults[order[2]].targets, c),
             order);
    SummarizePermutation(Listed(faults, order, c), Listed(faults, [1, 2, 3], c));
    assert |multiset(Listed(faults, order, c))| == |multiset(Listed(faults, [1, 2, 3], c))|;
  }

  lemma {:induction false} OneTwoThree(order: seq<U64>, keys: set<U64>)
    requires Distinct(order) && Elements(order) == keys == {1, 2, 3}
    ensures |order| == 3 && order == [order[0], order[1], order[2]]
    ensures forall i :: 0 <= i < 3 ==> order[i] in {1, 2, 3}
    ensures order[0] != order[1] && order[1] != order[2] && order[0] != order[2]
  {
    DistinctSize(order);
    assert |keys| == 3;
    assert forall k :: k in order ==> k in Elements(order);
  }

  /** Every client with a recorded recovery, with the statistic of its latest recoveries. */
  ghost predicate IsRecoveryStatistics(faults: map<U64, RunSummary>, m: map<Name, Statistic>)
    requires ThreeRuns(faults)
  {
    forall c :: EntryOf(m, c) == StatisticOf(faults, c)
  }

  function EntryOf(m: map<Name, Statistic>, c: Name): Option<Statistic> {
    if c in m then Some(m[c]) else None
  }

  /** The statistic of a client's latest recoveries, if it has any. */
  ghost function StatisticOf(faults: map<U64, RunSummary>, c: Name): Option<Statistic>
    requires ThreeRuns(faults)
  {
    var listed := Listed(faults, [1, 2, 3], c);
    if listed == [] then None else Some(Summarize(listed))
  }

  method RecoveryStatistics(faults: map<U64, RunSummary>) returns (m: map<Name, Statistic>)
    requires ThreeRuns(faults) && PredictionMatches(faults)
    ensures IsRecoveryStatistics(faults, m)
  {
    forall k | k in faults ensures AllRecovered(faults[k].targets) {
      assert AsPredicted(faults[k].targets);
    }
    var values;
    ghost var order;
    values, order := RecoveryValues(faults);
    m := SummarizeEach(values);
    forall c ensures EntryOf(m, c) == StatisticOf(faults, c) {
      ListedInAnyOrder(faults, order, c);
      assert ValuesOf(values, c) == Listed(faults, order, c);
    }
  }

  method SummarizeEach(values: map<Name, seq<nat>>) returns (m: map<Name, Statistic>)
    ensures m.Keys == values.Keys && forall c :: c in m ==> m[c] == Summarize(values[c])
  {
    m := map[];
    var rest := values.Keys;
    while rest != {}
      invariant rest <= values.Keys && m.Keys == values.Keys - rest
      invariant forall c :: c in m ==> m[c] == Summarize(values[c])
    {
      var c :| c in rest;
      m := m[c := Summarize(values[c])];
      rest := rest - {c};
    }
  }

  // ---------- The verdicts ----------

  datatype Verdicts = Verdicts(gateA: Gate, gateB: Gate, gateC: Gate, conclusion: Finding)

  /** The gates in order; a later one is evaluated only after the earlier ones were passed. */
  ghost function VerdictsOf(s: Scenario, t: Trial): Verdicts
    requires ThreeRuns(t.controls) && ThreeRuns(t.faults)
  {
    if !GateAHolds(s, t) then
      Verdicts(Gate(No, InvalidExperiment), NOT_EVALUATED, NOT_EVALUATED, InvalidExperiment)
    else if !RecoveryMeasured(t.faults) then
      Verdicts(Gate(Yes, ValidExperiment), Gate(NotEvaluated, InvalidMeasurement), NOT_EVALUATED, InvalidExperiment)
    else if !PredictionMatches(t.faults) then
      Verdicts(Gate(Yes, ValidExperiment), Gate(No, NetworkLevelFinding), NOT_EVALUATED, NetworkLevelFinding)
    else if GateCHolds(s, t.controls, t.faults) then
      Verdicts(Gate(Yes, ValidExperiment), Gate(Yes, PredictionMatched),
               Gate(Yes, ClientSpecificDifferentiation), ClientSpecificDifferentiation)
    else
      Verdicts(Gate(Yes, ValidExperiment), Gate(Yes, PredictionMatched),
               Gate(No, NoClientDifferentiation), ValidPredictedUniformEffect)
  }

  ghost predicate PastGateB(s: Scenario, t: Trial)
    requires ThreeRuns(t.controls) && ThreeRuns(t.faults)
  {
    GateAHolds(s, t) && RecoveryMeasured(t.faults) && PredictionMatches(t.faults)
  }

  ghost predicate IsAnalysis(s: Scenario, t: Trial, a: Analysis)
    requires ThreeRuns(t.controls) && ThreeRuns(t.faults)
  {
    && a.scenarioName == s.name && a.runs == t.ordered && a.pairs == PairsOf(s, t, 3)
    && a.controlMinimum == Summarize(Minima(a.pairs)) && a.faultMaximum == Summarize(Maxima(a.pairs))
    && Verdicts(a.gateA, a.gateB, a.gateC, a.conclusion) == VerdictsOf(s, t)
    && if PastGateB(s, t) then IsRecoveryStatistics(t.faults, a.recoveryByClient) else a.recoveryByClient == map[]
  }

  method AnalyzeTrial(s: Scenario, t: Trial) returns (a: Analysis)
    requires Valid(s) && ThreeRuns(t.controls) && ThreeRuns(t.faults)
    ensures IsAnalysis(s, t, a)
  {
    var pairs, controlProgress, faultProgress, holds := ScanPairs(s, t);
    a := Analysis(s.name, t.ordered, pairs, Summarize(controlProgress), Summarize(faultProgress), map[],
                  NOT_EVALUATED, NOT_EVALUATED, NOT_EVALUATED, NoFinding);
    if !holds {
      a := a.(gateA := Gate(No, InvalidExperiment), conclusion := InvalidExperiment);
      return;
    }
    a := a.(gateA := Gate(Yes, ValidExperiment));
    var measured := CheckRecoveryMeasured(t.faults);
    if !measured {
      a := a.(gateB := Gate(NotEvaluated, InvalidMeasurement), conclusion := InvalidExperiment);
      return;
    }
    var matched := CheckPrediction(t.faults);
    if !matched {
      a := a.(gateB := Gate(No, NetworkLevelFinding), conclusion := NetworkLevelFinding);
      return;
    }
    var recoveryByClient := RecoveryStatistics(t.faults);
    GatesAllowC(s, t);
    var differentiated := EvaluateGateC(s, t.controls, t.faults);
    a := a.(gateB := Gate(Yes, PredictionMatched), recoveryByClient := recoveryByClient);
    a := if differentiated
         then a.(gateC := Gate(Yes, ClientSpecificDifferentiation), conclusion := ClientSpecificDifferentiation)
         else a.(gateC := Gate(No, NoClientDifferentiation), conclusion := ValidPredictedUniformEffect);
  }

  /** Past Gates A and B the scan for Gate C is exact. */
  lemma {:induction false} GatesAllowC(s: Scenario, t: Trial)
    requires Valid(s) && ThreeRuns(t.controls) && ThreeRuns(t.faults) && PastGateB(s, t)
    ensures s.fault.groups != []
    ensures Differentiated(s, t.controls, t.faults, 1) || Differentiated(s, t.controls, t.faults, -1) <==>
              GateCHolds(s, t.controls, t.faults)
  {
    forall k | k in t.faults
      ensures WindowValid(t.faults[k], ByTarget(s.participants), GroupOf(s.fault.groups))
      ensures AllRecovered(t.faults[k].targets)
    {
      assert AsPredicted(t.faults[k].targets);
      assert PairStands(s, t, k);
    }
    GateCExact(s, t.controls, t.faults);
  }

  method Analyze(s: Scenario, runs: seq<RunSummary>) returns (r: Result<Analysis>)
    ensures Decides(s, runs, r)
  {
    var valid := Validate(s);
    if !valid {
      return Err;
    }
    var t := ValidateRuns(s, runs);
    if t.Err? {
      return Err;
    }
    var a := AnalyzeTrial(s, t.value);
    assert IsTrial(s, runs, t.value) && IsAnalysis(s, t.value, a);
    r := Ok(a);
  }

  /** Accepted runs of a valid scenario are adjudicated as the trial they form; all others are refused. */
  ghost predicate Decides(s: Scenario, runs: seq<RunSummary>, r: Result<Analysis>) {
    && (r.Ok? <==> Accepted(s) && RunsAccepted(s, runs))
    && (r.Ok? ==> exists t :: IsTrial(s, runs, t) && IsAnalysis(s, t, r.value))
  }

  // ---------- What the recovery statistics cover ----------

  /** Every client of one usable fault run that went as predicted: the two families, each with a value. */
  lemma {:induction false} FamilyRecovered(s: Scenario, run: RunSummary, c: Name)
    requires Valid(s) && Usable(s, run) && AsPredicted(run.targets)
    ensures MaxRecovery(run.targets, c).Some? <==> c in Families(ById(s.participants).Keys, ById(s.participants))
  {
    var ps, m, ts := s.participants, ById(s.participants), run.targets;
    ValidIsBalanced(s);
    WindowIsReported(s, run);
    MaxRecoveryIsMax(ts, c);
    if MaxRecovery(ts, c).Some? {
      var i :| 0 <= i < |ts| && ts[i].clClient == c && ts[i].recovery == MaxRecovery(ts, c);
      assert TargetValid(ts[i], ByTarget(ps), GroupOf(s.fault.groups));
      assert ByTarget(ps)[ts[i].target].id in m.Keys;
    }
    if c in Families(m.Keys, m) {
      var id :| id in m.Keys && m[id].clClient == c;
      forall i | 0 <= i < |ts| ensures ts[i].target in ByTarget(ps) {
        assert TargetValid(ts[i], ByTarget(ps), GroupOf(s.fault.groups));
      }
      EveryTargetReported(ts, ByTarget(ps), m[id].beaconTarget);
      var i :| 0 <= i < |ts| && ts[i].target == m[id].beaconTarget;
      assert TargetValid(ts[i], ByTarget(ps), GroupOf(s.fault.groups));
    }
  }

  /** Past Gate B the recovery statistics have exactly the two families, with one value per repetition. */
  lemma {:induction false} StatisticsCoverFamilies(s: Scenario, t: Trial, m: map<Name, Statistic>)
    requires Valid(s) && ThreeRuns(t.controls) && ThreeRuns(t.faults) && PastGateB(s, t)
    requires IsRecoveryStatistics(t.faults, m)
    ensures m.Keys == Families(ById(s.participants).Keys, ById(s.participants))
    ensures forall c :: c in m ==> |m[c].values| == 3
  {
    forall c
      ensures c in m <==> c in Families(ById(s.participants).Keys, ById(s.participants))
      ensures c in m ==> |m[c].values| == 3
    {
      CoveredFamily(s, t, m, c);
    }
  }

  lemma {:induction false} CoveredFamily(s: Scenario, t: Trial, m: map<Name, Statistic>, c: Name)
    requires Valid(s) && ThreeRuns(t.controls) && ThreeRuns(t.faults) && PastGateB(s, t)
    requires IsRecoveryStatistics(t.faults, m)
    ensures c in m <==> c in Families(ById(s.participants).Keys, ById(s.participants))
    ensures c in m ==> |m[c].values| == 3
  {
    assert AsPredicted(t.faults[1].targets) && AsPredicted(t.faults[2].targets) && AsPredicted(t.faults[3].targets);
    FamilyRecovered(s, t.faults[1], c);
    FamilyRecovered(s, t.faults[2], c);
    FamilyRecovered(s, t.faults[3], c);
    ListedThree(t.faults, 1, 2, 3, c);
    var listed := Listed(t.faults, [1, 2, 3], c);
    assert EntryOf(m, c) == StatisticOf(t.faults, c);
    if c in m {
      assert |multiset(SortValues(listed))| == |multiset(listed)|;
    }
  }

  // ---------- Order independence ----------

  lemma {:induction false} AnalysisUnique(s: Scenario, t: Trial, a: Analysis, b: Analysis)
    requires ThreeRuns(t.controls) && ThreeRuns(t.faults) && IsAnalysis(s, t, a) && IsAnalysis(s, t, b)
    ensures a == b
  {
    if PastGateB(s, t) {
      StatisticsUnique(t.faults, a.recoveryByClient, b.recoveryByClient);
    }
  }

  lemma {:induction false} StatisticsUnique(faults: map<U64, RunSummary>, m: map<Name, Statistic>,
                                            m': map<Name, Statistic>)
    requires ThreeRuns(faults) && IsRecoveryStatistics(faults, m) && IsRecoveryStatistics(faults, m')
    ensures m == m'
  {
    forall c ensures EntryOf(m, c) == EntryOf(m', c) {
      assert EntryOf(m, c) == StatisticOf(faults, c) == EntryOf(m', c);
    }
    SameEntries(m, m');
  }

  lemma {:induction false} SameEntries(m: map<Name, Statistic>, m': map<Name, Statistic>)
    requires forall c :: EntryOf(m, c) == EntryOf(m', c)
    ensures m == m'
  {
    forall c ensures (c in m <==> c in m') && (c in m ==> m[c] == m'[c]) {
      assert EntryOf(m, c) == EntryOf(m', c);
    }
  }

  lemma {:induction false} CompatiblePermutation(runs: seq<RunSummary>, other: seq<RunSummary>)
    requires multiset(runs) == multiset(other) && AllComparable(runs)
    ensures AllComparable(other)
  {
    PermutationElements(runs, other);
    ListedOnce(runs);
    forall i, j | 0 <= i < j < |other| ensures Comparable(other[i], other[j]) {
      assert other[i] in runs && other[j] in runs && other[i] != other[j];
      var a :| 0 <= a < |runs| && runs[a] == other[i];
      var b :| 0 <= b < |runs| && runs[b] == other[j];
      if a < b {
        assert Comparable(runs[a], runs[b]);
      } else {
        assert Comparable(runs[b], runs[a]);
      }
    }
  }

  lemma {:induction false} AcceptedPermutation(s: Scenario, runs: seq<RunSummary>, other: seq<RunSummary>)
    requires multiset(runs) == multiset(other) && RunsAccepted(s, runs)
    ensures RunsAccepted(s, other)
  {
    PermutationElements(runs, other);
    CompatiblePermutation(runs, other);
    forall i | 0 <= i < |other| ensures RunAccepted(s, other[i]) {
      assert other[i] in runs;
    }
  }

  lemma {:induction false} TrialPermutation(s: Scenario, runs: seq<RunSummary>, other: seq<RunSummary>, t: Trial)
    requires multiset(runs) == multiset(other) && IsTrial(s, runs, t)
    ensures IsTrial(s, other, t)
  {
    PermutationElements(runs, other);
  }

  lemma {:induction false} SameVerdict(s: Scenario, runs: seq<RunSummary>, other: seq<RunSummary>)
    requires multiset(runs) == multiset(other)
    ensures RunsAccepted(s, runs) <==> RunsAccepted(s, other)
  {
    if RunsAccepted(s, runs) {
      AcceptedPermutation(s, runs, other);
    } else if RunsAccepted(s, other) {
      AcceptedPermutation(s, other, runs);
    }
  }

  lemma {:induction false} SameAnalysis(s: Scenario, runs: seq<RunSummary>, other: seq<RunSummary>, t: Trial, t': Trial,
                                        a: Analysis, a': Analysis)
    requires multiset(runs) == multiset(other) && RunsAccepted(s, runs)
    requires IsTrial(s, runs, t) && IsTrial(s, other, t') && IsAnalysis(s, t, a) && IsAnalysis(s, t', a')
    ensures a == a'
  {
    TrialPermutation(s, other, runs, t');
    TrialUnique(s, runs, t, t');
    AnalysisUnique(s, t, a, a');
  }

  /** The verdict and the whole analysis are the same for every order of the runs. The maps inside are
      ranged over in any order as well. */
  lemma {:induction false} OrderIndependent(s: Scenario, runs: seq<RunSummary>, other: seq<RunSummary>,
                                            r: Result<Analysis>, r': Result<Analysis>)
    requires multiset(runs) == multiset(other) && Decides(s, runs, r) && Decides(s, other, r')
    ensures r == r'
  {
    SameVerdict(s, runs, other);
    if r.Ok? {
      var t :| IsTrial(s, runs, t) && IsAnalysis(s, t, r.value);
      var t' :| IsTrial(s, other, t') && IsAnalysis(s, t', r'.value);
      SameAnalysis(s, runs, other, t, t', r.value, r'.value);
    }
  }
}
